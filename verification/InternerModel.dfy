/**
  The interner as a value: for every shard, the list of strings it holds, in
  the order in which they were interned. A string's symbol is its shard and its
  position. The model is the specification of the `Interner` class, of the
  concurrent protocol and of the snapshot format.
 */
module InternerModel {
  import opened Bytes
  import opened Records
  import opened Symbols

  /** A pool's geometry, and the string hash: any deterministic function. */
  datatype Config = Config(capacity: nat, count: nat, region: nat, hash: Str -> nat)

  type Shards = seq<seq<Str>>

  const CAPACITY: nat := 0x2000_0000
  const DEFAULT_COUNT: nat := 16

  predicate IsShardCount(c: nat) {
    c == 1 || c == 2 || c == 4 || c == 8 || c == 16 || c == 32 || c == 64 || c == 128
  }

  /** `count.clamp(1, 128).next_power_of_two()`. */
  function ShardCount(requested: nat): (c: nat)
    ensures IsShardCount(c)
    ensures IsShardCount(requested) ==> c == requested
  {
    if requested <= 1 then 1 else if requested <= 2 then 2 else if requested <= 4 then 4
    else if requested <= 8 then 8 else if requested <= 16 then 16 else if requested <= 32 then 32
    else if requested <= 64 then 64 else 128
  }

  /** It is the least shard count that is not below the request, or the greatest of all. */
  lemma ShardCountLeast(requested: nat)
    ensures requested <= 128 ==> requested <= ShardCount(requested)
    ensures requested > 128 ==> ShardCount(requested) == 128
    ensures forall c | IsShardCount(c) && requested <= c :: ShardCount(requested) <= c
  {
  }

  /** Start of shard `s`'s region: regions follow the header and each other, see `BaseFormula`. */
  function Base(cfg: Config, s: nat): nat {
    if s == 0 then 4 else Base(cfg, s - 1) + cfg.region
  }

  /** The regions and the header fit into a capacity that is a u32. */
  ghost predicate FitsArena(cfg: Config) {
    cfg.count > 0 && cfg.region > 0 && Base(cfg, cfg.count) <= cfg.capacity < U32_SIZE
  }

  ghost predicate Configured(cfg: Config) {
    IsShardCount(cfg.count) && FitsArena(cfg)
  }

  /** `MemoryPool::new`: every shard gets an equal share of what the header leaves, cut to a multiple of four. */
  function Pool(capacity: nat, count: nat, hash: Str -> nat): Config
    requires count > 0 && capacity >= 4
  {
    Config(capacity, count, (capacity - 4) / count / 4 * 4, hash)
  }

  /** `with_capacity_and_shards`: the pool of every interner. */
  function Standard(count: nat, hash: Str -> nat): Config
    requires count > 0
  {
    Pool(CAPACITY, count, hash)
  }

  lemma {:induction false} BaseFormula(cfg: Config, s: nat)
    ensures Base(cfg, s) == 4 + s * cfg.region
  {
    if s > 0 { BaseFormula(cfg, s - 1); }
  }

  lemma {:induction false} BaseGap(cfg: Config, i: nat, j: nat)
    requires i < j
    ensures Base(cfg, i) + cfg.region <= Base(cfg, j)
  {
    if i < j - 1 { BaseGap(cfg, i, j - 1); }
  }

  /** Regions lie behind the header and inside the arena. */
  lemma RegionBounds(cfg: Config, i: nat)
    requires FitsArena(cfg) && i < cfg.count
    ensures 4 <= Base(cfg, i) && Base(cfg, i) + cfg.region <= cfg.capacity
  {
    if i > 0 { BaseGap(cfg, 0, i); }
    BaseGap(cfg, i, cfg.count);
  }

  /** No greater multiple of four would fit. */
  lemma PoolLargest(capacity: nat, count: nat, hash: Str -> nat)
    requires count > 0 && 4 <= capacity
    ensures 4 + count * (Pool(capacity, count, hash).region + 4) > capacity
  {
    var region, share := Pool(capacity, count, hash).region, (capacity - 4) / count;
    var more := region + 4;
    assert share + 1 <= more;
    assert count * (share + 1) > capacity - 4;
    Times(count, share + 1, more);
  }

  lemma Times(n: nat, a: nat, b: nat)
    requires a <= b
    ensures n * a <= n * b
  {
  }

  /** The constructor's assertion that regions are not empty is all that a pool needs. */
  lemma PoolConfigured(capacity: nat, count: nat, hash: Str -> nat)
    requires count > 0 && 4 <= capacity < U32_SIZE
    requires Pool(capacity, count, hash).region > 0
    ensures FitsArena(Pool(capacity, count, hash)) && Pool(capacity, count, hash).region % 4 == 0
  {
    var cfg, share := Pool(capacity, count, hash), (capacity - 4) / count;
    BaseFormula(cfg, count);
    assert cfg.region == share / 4 * 4 <= share;
    assert count * cfg.region <= count * share <= capacity - 4;
  }

  /** With the standard capacity regions are never empty, and from four shards on none has room for 2^24 records. */
  lemma StandardConfigured(count: nat, hash: Str -> nat)
    requires IsShardCount(count)
    ensures Configured(Standard(count, hash))
    ensures count >= 4 ==> Standard(count, hash).region < 8 * (INDEX_LIMIT + 1)
  {
    PoolConfigured(CAPACITY, count, hash);
  }

  /** `hash & shard_mask`: the mask is one less than a power of two. */
  function ShardOf(cfg: Config, v: Str): (s: nat)
    requires Configured(cfg)
    ensures s < cfg.count
  {
    cfg.hash(v) % cfg.count
  }

  /** For the shard counts in use, masking a 64-bit hash is taking its remainder. */
  lemma MaskIsRemainder(h: bv64)
    ensures h & 0 == h % 1 && h & 1 == h % 2 && h & 3 == h % 4 && h & 7 == h % 8
    ensures h & 15 == h % 16 && h & 31 == h % 32 && h & 63 == h % 64 && h & 127 == h % 128
  {
  }

  /** The last `k` binary digits of a number. */
  function LowBits(n: nat, k: nat): nat { if k == 0 then 0 else n % 2 + 2 * LowBits(n / 2, k - 1) }

  function Power(k: nat): (p: nat)
    ensures p > 0
  {
    if k == 0 then 1 else 2 * Power(k - 1)
  }

  /** The shard is the hash's last digits, as many as the shard count takes: `hash & shard_mask`. */
  lemma ShardIsMask(cfg: Config, v: Str, k: nat)
    requires Configured(cfg) && cfg.count == Power(k)
    ensures ShardOf(cfg, v) == LowBits(cfg.hash(v), k)
  {
    LowBitsIs(cfg.hash(v), k);
  }

  lemma {:induction false} LowBitsIs(n: nat, k: nat)
    ensures LowBits(n, k) == n % Power(k)
  {
    if k > 0 {
      LowBitsIs(n / 2, k - 1);
      Doubling(n, Power(k - 1));
    }
  }

  lemma Doubling(n: nat, m: nat)
    requires m > 0
    ensures n % (2 * m) == n % 2 + 2 * (n / 2 % m)
  {
    var q, r := n / 2 / m, n / 2 % m;
    var low := n % 2 + 2 * r;
    assert n / 2 == q * m + r;
    assert n == q * (2 * m) + low;
    Remainder(n, 2 * m, q, low);
  }

  lemma Remainder(n: nat, m: nat, q: nat, r: nat)
    requires m > 0 && n == q * m + r && r < m
    ensures n % m == r
  {
    var p := n / m;
    assert n == m * p + n % m && n == m * q + r;
    if p > q { Times(m, q + 1, p); }
    if p < q { Times(m, p + 1, q); }
  }

  ghost predicate Distinct(vs: seq<Str>) {
    forall i, j | 0 <= i < j < |vs| :: vs[i] != vs[j]
  }

  /** A string that shard `s` may hold. */
  ghost predicate Belongs(cfg: Config, s: nat, v: Str)
    requires Configured(cfg)
  {
    !IsStatic(v) && ValidUtf8(v) && |v| < MAX_LEN && ShardOf(cfg, v) == s
  }

  ghost predicate ShardStrings(cfg: Config, s: nat, vs: seq<Str>)
    requires Configured(cfg)
  {
    Distinct(vs) && AllBelong(cfg, s, vs)
  }

  ghost predicate AllBelong(cfg: Config, s: nat, vs: seq<Str>)
    requires Configured(cfg)
  {
    forall k | 0 <= k < |vs| :: Belongs(cfg, s, vs[k])
  }

  ghost predicate ShardFits(cfg: Config, vs: seq<Str>)
    requires Configured(cfg)
  {
    Size(vs) <= cfg.region && |vs| <= INDEX_LIMIT
  }

  ghost predicate WellFormed(cfg: Config, shards: Shards) {
    && Configured(cfg)
    && |shards| == cfg.count
    && (forall s | 0 <= s < |shards| :: ShardStrings(cfg, s, shards[s]))
    && (forall s | 0 <= s < |shards| :: ShardFits(cfg, shards[s]))
  }

  /** As `WellFormed`, but shards may repeat strings and hold more of them than symbols can name. */
  ghost predicate Fitting(cfg: Config, shards: Shards) {
    && Configured(cfg)
    && |shards| == cfg.count
    && (forall s | 0 <= s < |shards| :: AllBelong(cfg, s, shards[s]))
    && (forall s | 0 <= s < |shards| :: Size(shards[s]) <= cfg.region)
  }

  /** Symbols can name every string. */
  ghost predicate Nameable(shards: Shards) { forall s | 0 <= s < |shards| :: |shards[s]| <= INDEX_LIMIT }

  lemma WellFormedFits(cfg: Config, shards: Shards)
    requires WellFormed(cfg, shards)
    ensures Fitting(cfg, shards) && Nameable(shards)
  {
    forall s | 0 <= s < |shards|
      ensures AllBelong(cfg, s, shards[s]) && Size(shards[s]) <= cfg.region && |shards[s]| <= INDEX_LIMIT
    {
      assert ShardStrings(cfg, s, shards[s]) && ShardFits(cfg, shards[s]);
    }
  }

  function IndexIn(vs: seq<Str>, v: Str): (r: Option<nat>)
    ensures r.Some? <==> v in vs
    ensures r.Some? ==> r.value < |vs| && vs[r.value] == v
  {
    if vs == [] then None
    else if vs[|vs| - 1] == v then Some(|vs| - 1)
    else IndexIn(vs[..|vs| - 1], v)
  }

  function Get(cfg: Config, shards: Shards, v: Str): Option<nat>
    requires Configured(cfg) && |shards| == cfg.count
  {
    if IsStatic(v) then Some(StaticSymbol(v)) else
    var s := ShardOf(cfg, v);
    match IndexIn(shards[s], v)
    case Some(i) => Some(Pack(s, i))
    case None => None
  }

  function Resolve(shards: Shards, symbol: Symbol): Option<Str> {
    var s, i := ShardId(symbol), Index(symbol);
    if s == STATIC_SHARD then StaticText(i)
    else if s < |shards| && i < |shards[s]| then Some(shards[s][i])
    else None
  }

  function Append(shards: Shards, s: nat, v: Str): (r: Shards)
    requires s < |shards|
    ensures |r| == |shards|
  {
    shards[s := shards[s] + [v]]
  }

  /** Storing a new string; `None` is the panic of a full region or an index out of range. */
  function Store(cfg: Config, shards: Shards, v: Str): (r: Option<Shards>)
    requires Configured(cfg) && |shards| == cfg.count
    ensures r.Some? ==> |r.value| == cfg.count
  {
    if IsStatic(v) then Some(shards) else
    var s := ShardOf(cfg, v);
    if Size(shards[s]) + Padded(|v|) <= cfg.region && |shards[s]| < INDEX_LIMIT
    then Some(Append(shards, s, v)) else None
  }

  function Intern(cfg: Config, shards: Shards, v: Str): Option<Shards>
    requires Configured(cfg) && |shards| == cfg.count
  {
    if Get(cfg, shards, v).Some? then Some(shards) else Store(cfg, shards, v)
  }

  /** A hash table entry. */
  datatype Entry = Entry(hash: nat, prefix: nat, symbol: nat)

  /** The entry of string `k` of shard `s`, and the arena offset of its record. */
  function EntryOf(cfg: Config, s: nat, vs: seq<Str>, k: nat): Entry
    requires k < |vs|
  {
    Entry(cfg.hash(vs[k]), Prefix8(vs[k]), Pack(s, k))
  }

  function Offset(cfg: Config, s: nat, vs: seq<Str>, k: nat): nat
    requires k <= |vs|
  {
    Base(cfg, s) + Off(vs, k)
  }

  // ----- symbols and strings

  lemma DistinctIndex(vs: seq<Str>, v: Str, i: nat)
    requires Distinct(vs) && i < |vs| && vs[i] == v
    ensures IndexIn(vs, v) == Some(i)
  {
  }

  lemma GetThenResolve(cfg: Config, shards: Shards, v: Str, symbol: Symbol)
    requires WellFormed(cfg, shards) && Get(cfg, shards, v) == Some(symbol as nat)
    ensures Resolve(shards, symbol) == Some(v)
  {
    if IsStatic(v) {
      assert v != [] ==> v == [v[0]];
      PackRoundTrip(STATIC_SHARD, if v == [] then 0 else v[0] + 1);
    } else {
      var s := ShardOf(cfg, v);
      assert ShardFits(cfg, shards[s]);
      PackRoundTrip(s, IndexIn(shards[s], v).value);
    }
  }

  lemma ResolveThenGet(cfg: Config, shards: Shards, v: Str, symbol: Symbol)
    requires WellFormed(cfg, shards) && Resolve(shards, symbol) == Some(v)
    ensures Get(cfg, shards, v) == Some(symbol as nat)
  {
    var s, i := ShardId(symbol), Index(symbol);
    if s != STATIC_SHARD {
      assert ShardFits(cfg, shards[s]);
      assert ShardStrings(cfg, s, shards[s]) && Belongs(cfg, s, shards[s][i]);
      DistinctIndex(shards[s], v, i);
    }
    UnpackRoundTrip(symbol);
  }

  /** In a well-formed interner `get` and `resolve` are inverse: one symbol per string, one string per symbol. */
  lemma GetResolve(cfg: Config, shards: Shards, v: Str, symbol: Symbol)
    requires WellFormed(cfg, shards)
    ensures Get(cfg, shards, v) == Some(symbol as nat) <==> Resolve(shards, symbol) == Some(v)
  {
    if Get(cfg, shards, v) == Some(symbol as nat) { GetThenResolve(cfg, shards, v, symbol); }
    if Resolve(shards, symbol) == Some(v) { ResolveThenGet(cfg, shards, v, symbol); }
  }

  /**
    The empty text and the 128 one-byte texts have the same symbols in every interner, and
    no other text has one of the static shard.
   */
  lemma StaticExact(cfg: Config, shards: Shards, v: Str)
    requires WellFormed(cfg, shards)
    ensures v == [] ==> Get(cfg, shards, v) == Some(0xFF00_0001)
    ensures |v| == 1 && v[0] < 0x80 ==> Get(cfg, shards, v) == Some(0xFF00_0002 + v[0] as nat)
    ensures |v| > 1 && Get(cfg, shards, v).Some? ==> 0 < Get(cfg, shards, v).value < 0xFF00_0000
  {
    if |v| > 1 && Get(cfg, shards, v).Some? {
      var s := ShardOf(cfg, v);
      assert ShardFits(cfg, shards[s]);
      assert IndexIn(shards[s], v).value < INDEX_LIMIT;
    }
  }

  lemma ShardAppend(cfg: Config, s: nat, vs: seq<Str>, v: Str)
    requires Configured(cfg) && ShardStrings(cfg, s, vs) && Belongs(cfg, s, v) && v !in vs
    ensures ShardStrings(cfg, s, vs + [v])
  {
    var ws := vs + [v];
    forall k | 0 <= k < |ws| ensures Belongs(cfg, s, ws[k]) {
      assert k < |vs| ==> ws[k] == vs[k] && Belongs(cfg, s, vs[k]);
    }
  }

  /** Storing a string that the interner lacks keeps it well formed. */
  lemma StoreWellFormed(cfg: Config, shards: Shards, v: Str)
    requires WellFormed(cfg, shards) && Belongs(cfg, ShardOf(cfg, v), v)
    requires v !in shards[ShardOf(cfg, v)] && Store(cfg, shards, v).Some?
    ensures WellFormed(cfg, Store(cfg, shards, v).value)
  {
    var s := ShardOf(cfg, v);
    var shards' := Append(shards, s, v);
    OffAppend(shards[s], v, 0);
    ShardAppend(cfg, s, shards[s], v);
    forall t | 0 <= t < |shards'|
      ensures ShardStrings(cfg, t, shards'[t]) && ShardFits(cfg, shards'[t])
    {
      if t != s { assert shards'[t] == shards[t]; }
    }
  }

  /** Interning keeps the interner well formed, gives the string a symbol and moves no other. */
  lemma InternExtends(cfg: Config, shards: Shards, v: Str)
    requires WellFormed(cfg, shards) && ValidUtf8(v) && |v| < MAX_LEN
    requires Intern(cfg, shards, v).Some?
    ensures WellFormed(cfg, Intern(cfg, shards, v).value)
    ensures Get(cfg, Intern(cfg, shards, v).value, v).Some?
    ensures forall s | 0 <= s < |shards| :: shards[s] <= Intern(cfg, shards, v).value[s]
  {
    if Get(cfg, shards, v).None? {
      StoreWellFormed(cfg, shards, v);
      var s := ShardOf(cfg, v);
      var shards' := Append(shards, s, v);
      assert Intern(cfg, shards, v) == Some(shards');
      assert shards'[s][|shards[s]|] == v;
      assert v in shards'[s];
    }
  }

  /** Some well-formed interner holds `v` besides, behind what this one holds. */
  ghost predicate CouldHold(cfg: Config, shards: Shards, v: Str, more: Shards) {
    && WellFormed(cfg, more) && |more| == |shards| && (forall s | 0 <= s < |shards| :: shards[s] <= more[s])
    && Get(cfg, more, v).Some?
  }

  /** Interning fails only where no interner with the same strings could hold the new one. */
  lemma InternIff(cfg: Config, shards: Shards, v: Str)
    requires WellFormed(cfg, shards) && ValidUtf8(v) && |v| < MAX_LEN
    ensures Intern(cfg, shards, v).Some? <==> exists more :: CouldHold(cfg, shards, v, more)
  {
    if Intern(cfg, shards, v).Some? {
      InternExtends(cfg, shards, v);
      assert CouldHold(cfg, shards, v, Intern(cfg, shards, v).value);
    }
    if more :| CouldHold(cfg, shards, v, more) {
      if Get(cfg, shards, v).None? { RoomFor(cfg, shards, v, more); }
    }
  }

  lemma RoomFor(cfg: Config, shards: Shards, v: Str, more: Shards)
    requires WellFormed(cfg, shards) && CouldHold(cfg, shards, v, more) && Get(cfg, shards, v).None?
    ensures Store(cfg, shards, v).Some?
  {
    var s := ShardOf(cfg, v);
    var j := IndexIn(more[s], v).value;
    var n := |shards[s]|;
    assert ShardFits(cfg, more[s]);
    assert v !in shards[s] && forall k | 0 <= k < n :: more[s][k] == shards[s][k];
    OffMonotone(more[s], n, j);
    OffMonotone(more[s], j, |more[s]|);
    OffAgrees(more[s], shards[s], n);
  }

  // ----- snapshots

  /** `from_bytes`: insert every text in turn. */
  function StoreAll(cfg: Config, shards: Shards, vs: seq<Str>): (r: Option<Shards>)
    requires Configured(cfg) && |shards| == cfg.count
    ensures r.Some? ==> |r.value| == cfg.count
    decreases |vs|
  {
    if vs == [] then Some(shards) else
    match StoreAll(cfg, shards, vs[..|vs| - 1])
    case None => None
    case Some(before) => Store(cfg, before, vs[|vs| - 1])
  }

  function Empty(count: nat): (shards: Shards)
    ensures |shards| == count && forall s | 0 <= s < count :: shards[s] == []
  {
    seq(count, _ => [])
  }

  /** The shard count that a snapshot's header asks for. */
  function HeaderCount(bytes: seq<Byte>): (c: nat)
    ensures IsShardCount(c)
  {
    ShardCount(if |bytes| < 4 then DEFAULT_COUNT else Word32(bytes[..4]))
  }

  /** `from_bytes` (or the unchecked form) as a whole; `None` is a panic on the way. */
  function Rebuild(hash: Str -> nat, bytes: seq<Byte>, checked: bool): Option<Shards> {
    var cfg := Standard(HeaderCount(bytes), hash);
    StandardConfigured(HeaderCount(bytes), hash);
    StoreAll(cfg, Empty(cfg.count), Texts(bytes, 4, checked))
  }

  lemma {:induction false} StoreAllConcat(cfg: Config, shards: Shards, vs: seq<Str>, ws: seq<Str>)
    requires Configured(cfg) && |shards| == cfg.count
    ensures StoreAll(cfg, shards, vs + ws)
         == match StoreAll(cfg, shards, vs)
            case None => None
            case Some(mid) => StoreAll(cfg, mid, ws)
  {
    if ws == [] {
      assert vs + ws == vs;
    } else {
      var n := |ws| - 1;
      assert (vs + ws)[..|vs + ws| - 1] == vs + ws[..n];
      StoreAllConcat(cfg, shards, vs, ws[..n]);
    }
  }

  /** The first `s` shards of `shards` and `n` strings of the next one. */
  ghost predicate Rebuilt(shards: Shards, part: Shards, s: nat, n: nat)
    requires s < |shards| && n <= |shards[s]|
  {
    && |part| == |shards|
    && (forall t | 0 <= t < s :: part[t] == shards[t])
    && part[s] == shards[s][..n]
    && (forall t | s < t < |shards| :: part[t] == [])
  }

  /** Inserting one shard's strings in order fills exactly that shard, and fails only beyond the last index. */
  lemma {:induction false} StoreShard(cfg: Config, shards: Shards, part: Shards, s: nat, n: nat)
    requires Fitting(cfg, shards) && s < |shards| && n <= |shards[s]|
    requires Rebuilt(shards, part, s, 0)
    ensures var r := StoreAll(cfg, part, shards[s][..n]);
            (r.Some? <==> n <= INDEX_LIMIT) && (r.Some? ==> Rebuilt(shards, r.value, s, n))
    decreases n
  {
    hide Configured, AllBelong, Size, Store;
    var vs := shards[s];
    if n > 0 {
      StoreShard(cfg, shards, part, s, n - 1);
      assert vs[..n][..n - 1] == vs[..n - 1] && vs[..n][n - 1] == vs[n - 1];
      var before := StoreAll(cfg, part, vs[..n - 1]);
      if before.Some? { StoreOne(cfg, shards, before.value, s, n - 1); }
    }
  }

  /** The next string of a shard goes to its end, as long as there is an index for it. */
  lemma StoreOne(cfg: Config, shards: Shards, part: Shards, s: nat, n: nat)
    requires Fitting(cfg, shards) && s < |shards| && n < |shards[s]| && Rebuilt(shards, part, s, n)
    ensures |part| == cfg.count
    ensures var r := Store(cfg, part, shards[s][n]);
            (r.Some? <==> n < INDEX_LIMIT) && (r.Some? ==> Rebuilt(shards, r.value, s, n + 1))
  {
    hide ValidUtf8, IsShardCount, FitsArena, Padded, Distinct, Off;
    var vs := shards[s];
    assert vs[..n + 1] == vs[..n] + [vs[n]];
    assert AllBelong(cfg, s, vs) && Belongs(cfg, s, vs[n]);
    OffAgrees(vs, vs[..n], n);
    OffMonotone(vs, n, |vs|);
  }

  /** The first `s` shards of `shards`, the others empty. */
  ghost predicate FilledUpTo(shards: Shards, part: Shards, s: nat)
    requires s <= |shards|
  {
    && |part| == |shards|
    && (forall t | 0 <= t < s :: part[t] == shards[t])
    && (forall t | s <= t < |shards| :: part[t] == [])
  }

  lemma NameableStep(shards: Shards, s: nat)
    requires s < |shards|
    ensures Nameable(shards[..s + 1]) <==> Nameable(shards[..s]) && |shards[s]| <= INDEX_LIMIT
  {
    assert shards[..s + 1] == shards[..s] + [shards[s]];
  }

  lemma StoreNext(cfg: Config, shards: Shards, part: Shards, s: nat)
    requires Fitting(cfg, shards) && s < |shards| && FilledUpTo(shards, part, s)
    ensures var r := StoreAll(cfg, part, shards[s]);
            (r.Some? <==> |shards[s]| <= INDEX_LIMIT) && (r.Some? ==> FilledUpTo(shards, r.value, s + 1))
  {
    hide StoreAll, AllBelong, Size, Configured;
    var vs := shards[s];
    assert vs[..0] == [] && vs[..|vs|] == vs;
    StoreShard(cfg, shards, part, s, |vs|);
  }

  lemma {:induction false} StoreShards(cfg: Config, shards: Shards, s: nat)
    requires Fitting(cfg, shards) && s <= |shards|
    ensures var r := StoreAll(cfg, Empty(cfg.count), Flatten(shards[..s]));
            (r.Some? <==> Nameable(shards[..s])) && (r.Some? ==> FilledUpTo(shards, r.value, s))
  {
    if s == 0 {
      hide AllBelong, Size;
    } else {
      hide StoreAll, AllBelong, Nameable, Size, IsShardCount, FitsArena, FilledUpTo;
      StoreShards(cfg, shards, s - 1);
      NameableStep(shards, s - 1);
      var front := Flatten(shards[..s - 1]);
      assert shards[..s][..s - 1] == shards[..s - 1] && shards[..s][s - 1] == shards[s - 1];
      assert Flatten(shards[..s]) == front + shards[s - 1];
      StoreAllConcat(cfg, Empty(cfg.count), front, shards[s - 1]);
      var first := StoreAll(cfg, Empty(cfg.count), front);
      if first.Some? { StoreNext(cfg, shards, first.value, s - 1); }
    }
  }

  lemma {:induction false} FlattenValid(cfg: Config, shards: Shards, all: Shards, s: nat)
    requires Fitting(cfg, all) && s <= |all| && shards == all[..s]
    ensures forall k | 0 <= k < |Flatten(shards)| :: ValidUtf8(Flatten(shards)[k])
    decreases s
  {
    if s > 0 {
      var vs := shards[s - 1];
      FlattenValid(cfg, shards[..s - 1], all, s - 1);
      assert AllBelong(cfg, s - 1, vs);
      assert forall k | 0 <= k < |vs| :: Belongs(cfg, s - 1, vs[k]);
    }
  }

  /**
    Reading back any snapshot restores every shard string for string if symbols can
    name them all, and panics otherwise. Padding bytes are free.
   */
  lemma SnapshotExact(cfg: Config, shards: Shards, bytes: seq<Byte>, checked: bool)
    requires Fitting(cfg, shards) && IsSnapshot(bytes, shards)
    requires cfg == Standard(cfg.count, cfg.hash)
    ensures HeaderCount(bytes) == cfg.count
    ensures Rebuild(cfg.hash, bytes, checked) == if Nameable(shards) then Some(shards) else None
  {
    assert shards[..|shards|] == shards;
    assert Texts(bytes, 4, checked) == Flatten(shards) by {
      FlattenValid(cfg, shards, shards, |shards|);
      TextsOfRun(bytes, 4, Flatten(shards), 0, checked);
    }
    StoreShards(cfg, shards, |shards|);
    if Nameable(shards) { assert StoreAll(cfg, Empty(cfg.count), Flatten(shards)).value == shards; }
    assert cfg == Standard(HeaderCount(bytes), cfg.hash);
  }

  /**
    The snapshot round trip: reading back any snapshot of a well-formed interner
    exhausts no region and restores every shard string for string, so that
    every symbol and every lookup is the same as before.
   */
  lemma SnapshotRoundTrip(cfg: Config, shards: Shards, bytes: seq<Byte>, checked: bool)
    requires WellFormed(cfg, shards) && IsSnapshot(bytes, shards)
    requires cfg == Standard(cfg.count, cfg.hash)
    ensures HeaderCount(bytes) == cfg.count
    ensures Rebuild(cfg.hash, bytes, checked) == Some(shards)
  {
    WellFormedFits(cfg, shards);
    SnapshotExact(cfg, shards, bytes, checked);
  }

  /** Storing a valid string, whether or not the shard has it, leaves shards that fit and that symbols can name. */
  lemma StoreFits(cfg: Config, shards: Shards, v: Str)
    requires Fitting(cfg, shards) && Nameable(shards) && ValidUtf8(v) && Store(cfg, shards, v).Some?
    ensures Fitting(cfg, Store(cfg, shards, v).value) && Nameable(Store(cfg, shards, v).value)
  {
    hide ValidUtf8, IsShardCount;
    if !IsStatic(v) {
      var s := ShardOf(cfg, v);
      var shards' := Append(shards, s, v);
      assert AllBelong(cfg, s, shards[s]);
      OffAppend(shards[s], v, 0);
      RegionBounds(cfg, s);
      forall t | 0 <= t < |shards'|
        ensures AllBelong(cfg, t, shards'[t]) && Size(shards'[t]) <= cfg.region && |shards'[t]| <= INDEX_LIMIT
      {
        if t != s { assert shards'[t] == shards[t] && AllBelong(cfg, t, shards[t]); }
      }
    }
  }

  lemma {:induction false} StoreAllFits(cfg: Config, shards: Shards, vs: seq<Str>)
    requires Fitting(cfg, shards) && Nameable(shards) && StoreAll(cfg, shards, vs).Some?
    requires forall v | v in vs :: ValidUtf8(v)
    ensures Fitting(cfg, StoreAll(cfg, shards, vs).value) && Nameable(StoreAll(cfg, shards, vs).value)
    decreases |vs|
  {
    hide ValidUtf8, Store, Fitting, Nameable;
    if vs != [] {
      var n := |vs| - 1;
      assert Configured(cfg) && |shards| == cfg.count by { FittingShape(cfg, shards); }
      StoreAllFits(cfg, shards, vs[..n]);
      StoreFits(cfg, StoreAll(cfg, shards, vs[..n]).value, vs[n]);
    }
  }

  lemma FittingShape(cfg: Config, shards: Shards)
    requires Fitting(cfg, shards)
    ensures Configured(cfg) && |shards| == cfg.count
  {
  }

  /**
    An interner loaded from any bytes with valid texts, repeated ones included: every
    snapshot of it loads as the same interner, string for string and symbol for symbol.
   */
  lemma LoadedReloads(hash: Str -> nat, bytes: seq<Byte>, checked: bool, again: seq<Byte>, checked': bool)
    requires checked || forall v | v in Texts(bytes, 4, false) :: ValidUtf8(v)
    requires Rebuild(hash, bytes, checked).Some? && IsSnapshot(again, Rebuild(hash, bytes, checked).value)
    ensures Rebuild(hash, again, checked') == Rebuild(hash, bytes, checked)
  {
    hide ValidUtf8, StoreAll, Texts, IsSnapshot;
    var cfg := Standard(HeaderCount(bytes), hash);
    StandardConfigured(HeaderCount(bytes), hash);
    EmptyFits(cfg);
    if checked { CheckedValid(bytes, 4); }
    StoreAllFits(cfg, Empty(cfg.count), Texts(bytes, 4, checked));
    SnapshotExact(cfg, Rebuild(hash, bytes, checked).value, again, checked');
  }

  lemma {:induction false} CheckedValid(bytes: seq<Byte>, pos: nat)
    ensures forall v | v in Texts(bytes, pos, true) :: ValidUtf8(v)
    decreases |bytes| - pos
  {
    if pos + 4 <= |bytes| {
      var len := Word32(bytes[pos..pos + 4]);
      if pos + 4 + len <= |bytes| { CheckedValid(bytes, pos + Padded(len)); }
    }
  }

  lemma EmptyFits(cfg: Config)
    requires Configured(cfg)
    ensures Fitting(cfg, Empty(cfg.count)) && Nameable(Empty(cfg.count))
  {
  }

  /** The texts that are encodings, in order. */
  function ValidOnes(vs: seq<Str>): seq<Str> {
    if vs == [] then [] else (if ValidUtf8(vs[0]) then [vs[0]] else []) + ValidOnes(vs[1..])
  }

  lemma {:induction false} AllValid(vs: seq<Str>)
    requires forall v | v in vs :: ValidUtf8(v)
    ensures ValidOnes(vs) == vs
  {
    hide ValidUtf8;
    if vs != [] { AllValid(vs[1..]); }
  }

  /** The checked reader hands on what the unchecked one does, without the texts that are not valid. */
  lemma {:induction false} TextsChecked(bytes: seq<Byte>, pos: nat)
    ensures Texts(bytes, pos, true) == ValidOnes(Texts(bytes, pos, false))
    decreases |bytes| - pos
  {
    if pos + 4 <= |bytes| {
      var len := Word32(bytes[pos..pos + 4]);
      if pos + 4 + len <= |bytes| {
        hide ValidUtf8, Word32, Padded;
        var text, rest := bytes[pos + 4..pos + 4 + len], Texts(bytes, pos + Padded(len), false);
        assert Texts(bytes, pos, false) == [text] + rest && ([text] + rest)[1..] == rest;
        TextsChecked(bytes, pos + Padded(len));
      }
    }
  }

  /**
    A run of any records is read record by record up to a record that is cut off, and the
    checked reader leaves out those that are not valid.
   */
  lemma RecordsRead(bytes: seq<Byte>, vs: seq<Str>)
    requires HoldsAt(bytes, 4, vs) && RunEnds(bytes, 4 + Size(vs))
    ensures Texts(bytes, 4, false) == vs && Texts(bytes, 4, true) == ValidOnes(vs)
  {
    hide HoldsAt, ValidUtf8, Texts;
    assert vs[0..] == vs;
    TextsOfRun(bytes, 4, vs, 0, false);
    TextsChecked(bytes, 4);
  }

  /** Without invalid texts the unchecked reader hands on the same texts as the checked one. */
  lemma TextsUnchecked(bytes: seq<Byte>, pos: nat)
    requires forall v | v in Texts(bytes, pos, false) :: ValidUtf8(v)
    ensures Texts(bytes, pos, true) == Texts(bytes, pos, false)
  {
    TextsChecked(bytes, pos);
    AllValid(Texts(bytes, pos, false));
  }
}
