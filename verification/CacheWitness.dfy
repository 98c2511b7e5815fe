/**
  The condition of `ConcurrentSafety.Trusted` is exact: for every value that it
  excludes, under every hash and geometry, there is a run of one thread in which the
  value is given the symbol of another string.
 */
module CacheWitness {
  import opened Bytes
  import opened Records
  import opened Symbols
  import opened InternerModel
  import opened ConcurrentInterner
  import opened ConcurrentSafety

  ghost predicate Reaches(cfg: Config, s: State, s': State) {
    Shape(cfg, s) && Shape(cfg, s') && exists moves :: Run(cfg, s, moves) == Some(s')
  }

  lemma Stay(cfg: Config, s: State)
    requires Shape(cfg, s)
    ensures Reaches(cfg, s, s)
  {
    assert Run(cfg, s, []) == Some(s);
  }

  lemma Follow(cfg: Config, s: State, mid: State, m: Move, s': State)
    requires Reaches(cfg, s, mid) && Do(cfg, mid, 0, m) == Some(s')
    ensures Reaches(cfg, s, s')
  {
    hide Do;
    var moves :| Run(cfg, s, moves) == Some(mid);
    var moves' := moves + [(0, m)];
    assert moves'[..|moves'| - 1] == moves;
    assert Run(cfg, s, moves') == Some(s');
  }

  function EmptyCell(): Cell { Cell(0, 0, 0, 0, 0, 0) }
  function EmptyCache(): Cache { seq(CACHE_SIZE, _ => EmptyCell()) }
  function NewShard(): Shard { Shard(0, false, 0, map[], {}, Shared({}), []) }

  lemma NewIsLoaded(cfg: Config, i: nat)
    ensures LoadedShard(cfg, i, []) == NewShard()
  {
    assert LoadedChunks(cfg, i, []) == map[];
  }

  /** A state of one thread, in which only shard `i` may hold anything. */
  function One(cfg: Config, i: nat, mem: seq<Byte>, sh: Shard, pc: Pc, cache: Cache,
               returned: set<(Str, nat)>): (s: State)
    requires i < cfg.count
    ensures |s.shards| == cfg.count && s.shards[i] == sh
  {
    State(1, false, mem, seq(cfg.count, k => if k == i then sh else NewShard()), [Thread(pc, cache)], returned, false)
  }

  /** What the witness needs: a configuration, and a string with a place in its shard. */
  ghost predicate Fits(cfg: Config, w: Str) {
    Configured(cfg) && Storable(w) && |w| > 8 && Padded(|w|) <= cfg.region
  }

  function Home(cfg: Config, w: Str): (i: nat)
    requires Configured(cfg)
    ensures i < cfg.count
  {
    ShardOf(cfg, w)
  }

  /** The memory after `k` bytes of the record were copied. */
  function Written(cfg: Config, mem: seq<Byte>, w: Str, k: nat): (m: seq<Byte>)
    requires Fits(cfg, w) && k <= 4 + |w| && |mem| == cfg.capacity + 4
    ensures |m| == |mem|
  {
    var b := Base(cfg, Home(cfg, w));
    RegionBounds(cfg, Home(cfg, w));
    mem[..b] + Image(w)[..k] + mem[b + k..]
  }

  function Locked(w: Str, phase: Phase): Shard {
    NewShard().(lock := Exclusive(0, w, phase))
  }

  /** The state while `w` is being written. */
  ghost function Busy(cfg: Config, mem: seq<Byte>, w: Str, sh: Shard): State
    requires Configured(cfg)
  {
    One(cfg, Home(cfg, w), mem, sh, Writing(w), EmptyCache(), {})
  }

  function Start(cfg: Config, mem: seq<Byte>, w: Str): State
    requires Configured(cfg)
  {
    One(cfg, Home(cfg, w), mem, NewShard(), Idle, EmptyCache(), {})
  }

  lemma Replace(cfg: Config, i: nat, mem: seq<Byte>, mem': seq<Byte>, sh: Shard, sh': Shard, pc: Pc, pc': Pc,
                c: Cache, r: set<(Str, nat)>)
    requires i < cfg.count
    ensures At(WithShard(One(cfg, i, mem, sh, pc, c, r).(mem := mem'), i, sh'), 0, pc')
            == One(cfg, i, mem', sh', pc', c, r)
  {
    var one, two := One(cfg, i, mem, sh, pc, c, r), One(cfg, i, mem', sh', pc', c, r);
    assert one.shards[i := sh'] == two.shards;
  }

  /** A step of the lone thread that changes its position, its shard or nothing else. */
  lemma FollowStep(cfg: Config, s: State, i: nat, mem: seq<Byte>, sh: Shard, pc: Pc, sh': Shard, pc': Pc, c: Cache,
                   r: set<(Str, nat)>)
    requires i < cfg.count && Reaches(cfg, s, One(cfg, i, mem, sh, pc, c, r))
    requires var one := One(cfg, i, mem, sh, pc, c, r);
             StepThread(cfg, one, 0) == Some(At(WithShard(one, i, sh'), 0, pc'))
    ensures Reaches(cfg, s, One(cfg, i, mem, sh', pc', c, r))
  {
    hide StepThread, At, WithShard;
    var before := One(cfg, i, mem, sh, pc, c, r);
    Replace(cfg, i, mem, mem, sh, sh', pc, pc', c, r);
    assert before.(mem := mem) == before;
    Follow(cfg, s, before, Step, One(cfg, i, mem, sh', pc', c, r));
  }

  /** A step of the lone writer. */
  lemma FollowWork(cfg: Config, s: State, mem: seq<Byte>, sh: Shard, w: Str, mem': seq<Byte>, sh': Shard)
    requires Fits(cfg, w) && |mem| == |mem'| == cfg.capacity + 4 && Reaches(cfg, s, Busy(cfg, mem, w, sh))
    requires sh.lock.Exclusive? && sh.lock.tid == 0 && sh.lock.value == w && !sh.lock.phase.Found?
    requires Work(cfg, mem, Home(cfg, w), sh) == Some(Continue(mem', sh'))
    ensures Reaches(cfg, s, Busy(cfg, mem', w, sh'))
  {
    hide Work, Padded, Reaches, ValidUtf8;
    var i := Home(cfg, w);
    var before := Busy(cfg, mem, w, sh);
    var next := WithShard(before.(mem := mem', crashed := false), i, sh');
    assert StepThread(cfg, before, 0) == Some(At(next, 0, Writing(w)));
    Replace(cfg, i, mem, mem', sh, sh', Writing(w), Writing(w), EmptyCache(), {});
    assert before.(mem := mem', crashed := false) == before.(mem := mem');
    Follow(cfg, s, before, Step, Busy(cfg, mem', w, sh'));
  }

  lemma StartCall(cfg: Config, s: State, i: nat, mem: seq<Byte>, sh: Shard, c: Cache, r: set<(Str, nat)>, w: Str)
    requires i < cfg.count && Reaches(cfg, s, One(cfg, i, mem, sh, Idle, c, r)) && Storable(w)
    ensures Reaches(cfg, s, One(cfg, i, mem, sh, Probe(w, true), c, r))
  {
    var before, after := One(cfg, i, mem, sh, Idle, c, r), One(cfg, i, mem, sh, Probe(w, true), c, r);
    assert At(before, 0, Probe(w, true)) == after;
    Follow(cfg, s, before, Call(w, true), after);
  }

  /** An empty cache has no answer. */
  lemma EmptyProbe(mem: seq<Byte>, hash: nat, w: Str)
    ensures ProbeCache(mem, EmptyCache(), 1, hash, w) == None
    ensures FillSlot(EmptyCache(), hash) == LineBase(hash)
  {
    hide Prefix8;
  }

  /** Up to the read lock and back. */
  lemma ReachMissed(cfg: Config, mem: seq<Byte>, w: Str)
    requires Fits(cfg, w) && |mem| == cfg.capacity + 4
    ensures Reaches(cfg, Start(cfg, mem, w), One(cfg, Home(cfg, w), mem, NewShard(), Missed(w), EmptyCache(), {}))
  {
    hide ProbeCache, Padded, Base, Configured, Storable;
    var i, c, n := Home(cfg, w), EmptyCache(), NewShard();
    var s := Start(cfg, mem, w);
    Stay(cfg, s);
    StartCall(cfg, s, i, mem, n, c, {}, w);
    EmptyProbe(mem, cfg.hash(w), w);
    var probing := One(cfg, i, mem, n, Probe(w, true), c, {});
    assert WithShard(probing, i, n) == probing by { assert probing.shards[i := n] == probing.shards; }
    FollowStep(cfg, s, i, mem, n, Probe(w, true), n, Lookup(w, true), c, {});
    var r := n.(lock := Shared({0}));
    assert n.lock.readers + {0} == {0} && {0} - {0} == n.lock.readers;
    FollowStep(cfg, s, i, mem, n, Lookup(w, true), r, Reading(w, true), c, {});
    FollowStep(cfg, s, i, mem, r, Reading(w, true), n, Missed(w), c, {});
  }

  /** Up to the first byte of the record. */
  lemma ReachCopy(cfg: Config, mem: seq<Byte>, w: Str)
    requires Fits(cfg, w) && |mem| == cfg.capacity + 4
    ensures Reaches(cfg, Start(cfg, mem, w), Busy(cfg, mem, w, Locked(w, Copy(0))))
  {
    hide Base, ProbeCache;
    var s := Start(cfg, mem, w);
    ReachMissed(cfg, mem, w);
    FollowStep(cfg, s, Home(cfg, w), mem, NewShard(), Missed(w), Locked(w, Recheck), Writing(w), EmptyCache(), {});
    FollowWork(cfg, s, mem, Locked(w, Recheck), w, mem, Locked(w, Copy(0)));
  }

  lemma WriteNext(cfg: Config, mem: seq<Byte>, w: Str, k: nat)
    requires Fits(cfg, w) && |mem| == cfg.capacity + 4 && k < 4 + |w|
    ensures var b := Base(cfg, Home(cfg, w));
            b + k < |mem| && Written(cfg, mem, w, k)[b + k := Image(w)[k]] == Written(cfg, mem, w, k + 1)
  {
    hide Base, IsShardCount, Image, Storable;
    RegionBounds(cfg, Home(cfg, w));
    var b := Base(cfg, Home(cfg, w));
    var image := Image(w);
    assert image[..k + 1] == image[..k] + [image[k]];
    assert mem[b + k..] == [mem[b + k]] + mem[b + k + 1..];
  }

  lemma WriteNothing(cfg: Config, mem: seq<Byte>, w: Str)
    requires Fits(cfg, w) && |mem| == cfg.capacity + 4
    ensures Written(cfg, mem, w, 0) == mem
  {
    hide Base, Storable;
    RegionBounds(cfg, Home(cfg, w));
  }

  /** Byte by byte through the record. */
  lemma {:induction false} ReachWritten(cfg: Config, mem: seq<Byte>, w: Str, k: nat)
    requires Fits(cfg, w) && |mem| == cfg.capacity + 4 && k <= 4 + |w|
    ensures Reaches(cfg, Start(cfg, mem, w), Busy(cfg, Written(cfg, mem, w, k), w, Locked(w, Copy(k))))
  {
    hide Base, Written, Image, Reaches, StepThread, Busy, Start, ValidUtf8, Configured, Padded;
    if k == 0 {
      ReachCopy(cfg, mem, w);
      WriteNothing(cfg, mem, w);
    } else {
      ReachWritten(cfg, mem, w, k - 1);
      WriteNext(cfg, mem, w, k - 1);
      FollowWork(cfg, Start(cfg, mem, w), Written(cfg, mem, w, k - 1), Locked(w, Copy(k - 1)),
                 w, Written(cfg, mem, w, k), Locked(w, Copy(k)));
    }
  }

  /** The shard in the publishing phases of its first string. */
  function Publishing(w: Str, len: nat, chunks: map<nat, seq<nat>>, entries: set<Entry>, lock: Lock): Shard {
    Shard(Padded(|w|), false, len, chunks, entries, lock, [w])
  }

  function Offsets(first: nat): map<nat, seq<nat>> { map[0 := Zeros()[0 := first]] }

  /** The first string's entry. */
  function FirstEntry(cfg: Config, w: Str): Entry
    requires Configured(cfg)
  {
    Entry(cfg.hash(w), Prefix8(w), Pack(Home(cfg, w), 0))
  }

  /** From the last byte to the raised length. */
  lemma ReachCounted(cfg: Config, mem: seq<Byte>, w: Str)
    requires Fits(cfg, w) && |mem| == cfg.capacity + 4
    ensures var b, m := Base(cfg, Home(cfg, w)), Written(cfg, mem, w, 4 + |w|);
            Reaches(cfg, Start(cfg, mem, w), Busy(cfg, m, w, Publishing(w, 1, map[], {}, Exclusive(0, w, Chunk(b, 0)))))
  {
    hide Written, Prefix8, Zeros, Base, Image, Reaches, StepThread, Busy, Start, ValidUtf8;
    var s, b, m := Start(cfg, mem, w), Base(cfg, Home(cfg, w)), Written(cfg, mem, w, 4 + |w|);
    ReachWritten(cfg, mem, w, 4 + |w|);
    var a := Publishing(w, 0, map[], {}, Exclusive(0, w, Push(b)));
    assert [] + [w] == [w];
    FollowWork(cfg, s, m, Locked(w, Copy(4 + |w|)), w, m, a);
    FollowWork(cfg, s, m, a, w, m, Publishing(w, 1, map[], {}, Exclusive(0, w, Chunk(b, 0))));
  }

  /** On to the offset array's new chunk. */
  lemma ReachChunk(cfg: Config, mem: seq<Byte>, w: Str)
    requires Fits(cfg, w) && |mem| == cfg.capacity + 4
    ensures var b, m := Base(cfg, Home(cfg, w)), Written(cfg, mem, w, 4 + |w|);
            Reaches(cfg, Start(cfg, mem, w),
                    Busy(cfg, m, w, Publishing(w, 1, Offsets(0), {}, Exclusive(0, w, Slot(b, 0)))))
  {
    hide Written, Prefix8, Zeros, Base, Image, Reaches, StepThread, Busy, Start, ValidUtf8;
    var s, b, m := Start(cfg, mem, w), Base(cfg, Home(cfg, w)), Written(cfg, mem, w, 4 + |w|);
    ReachCounted(cfg, mem, w);
    var c := Publishing(w, 1, map[], {}, Exclusive(0, w, Chunk(b, 0)));
    var d := Publishing(w, 1, map[], {}, Exclusive(0, w, Install(b, 0)));
    FollowWork(cfg, s, m, c, w, m, d);
    assert Zeros()[0 := 0] == Zeros();
    FollowWork(cfg, s, m, d, w, m, Publishing(w, 1, Offsets(0), {}, Exclusive(0, w, Slot(b, 0))));
  }

  /** And on to the entry in the hash table. */
  lemma ReachFound(cfg: Config, mem: seq<Byte>, w: Str)
    requires Fits(cfg, w) && |mem| == cfg.capacity + 4
    ensures var b, m := Base(cfg, Home(cfg, w)), Written(cfg, mem, w, 4 + |w|);
            Reaches(cfg, Start(cfg, mem, w),
                    Busy(cfg, m, w, Publishing(w, 1, Offsets(b), {FirstEntry(cfg, w)},
                                               Exclusive(0, w, Found(Pack(Home(cfg, w), 0), b + 4)))))
  {
    hide Written, Prefix8, Zeros, Base, Image, Pack, Reaches, StepThread, Busy, Start, ValidUtf8;
    var i, s, m := Home(cfg, w), Start(cfg, mem, w), Written(cfg, mem, w, 4 + |w|);
    var b := Base(cfg, i);
    ReachChunk(cfg, mem, w);
    var e := Publishing(w, 1, Offsets(0), {}, Exclusive(0, w, Slot(b, 0)));
    var f := Publishing(w, 1, Offsets(b), {}, Exclusive(0, w, Enter(b, 0)));
    assert Zeros()[0 := 0][0 := b] == Zeros()[0 := b];
    assert Offsets(0)[0 := Zeros()[0 := 0][0 := b]] == Offsets(b);
    FollowWork(cfg, s, m, e, w, m, f);
    var g := Publishing(w, 1, Offsets(b), {FirstEntry(cfg, w)}, Exclusive(0, w, Found(Pack(i, 0), b + 4)));
    assert {} + {FirstEntry(cfg, w)} == {FirstEntry(cfg, w)};
    FollowWork(cfg, s, m, f, w, m, g);
  }

  /** The shard once its first string is published. */
  function Published(cfg: Config, w: Str): Shard
    requires Configured(cfg)
  {
    Publishing(w, 1, Offsets(Base(cfg, Home(cfg, w))), {FirstEntry(cfg, w)}, Shared({}))
  }

  function FilledCell(cfg: Config, w: Str): Cell
    requires Configured(cfg)
  {
    Cell(1, cfg.hash(w) % U32_SIZE, |w|, Prefix8(w), Base(cfg, Home(cfg, w)) + 4, Pack(Home(cfg, w), 0))
  }

  function CacheWith(cfg: Config, w: Str): Cache
    requires Configured(cfg)
  {
    EmptyCache()[LineBase(cfg.hash(w)) := FilledCell(cfg, w)]
  }

  /** The state in which the string was returned, and perhaps others under its symbol. */
  ghost function Done(cfg: Config, mem: seq<Byte>, w: Str, pc: Pc, returned: set<(Str, nat)>): State
    requires Fits(cfg, w) && |mem| == cfg.capacity + 4
  {
    One(cfg, Home(cfg, w), Written(cfg, mem, w, 4 + |w|), Published(cfg, w), pc, CacheWith(cfg, w), returned)
  }

  /** Releasing the lock. */
  lemma ReachReleased(cfg: Config, mem: seq<Byte>, w: Str)
    requires Fits(cfg, w) && |mem| == cfg.capacity + 4
    ensures var i, m := Home(cfg, w), Written(cfg, mem, w, 4 + |w|);
            Reaches(cfg, Start(cfg, mem, w),
                    One(cfg, i, m, Published(cfg, w), Fill(w, Pack(i, 0), Base(cfg, i) + 4), EmptyCache(), {}))
  {
    hide Written, Prefix8, Base, Pack, Offsets, Configured, Reaches, Start, FirstEntry, ValidUtf8, EmptyCache;
    var i, m := Home(cfg, w), Written(cfg, mem, w, 4 + |w|);
    var b, symbol := Base(cfg, i), Pack(i, 0);
    ReachFound(cfg, mem, w);
    var g := Publishing(w, 1, Offsets(b), {FirstEntry(cfg, w)}, Exclusive(0, w, Found(symbol, b + 4)));
    ReachesShape(cfg, Start(cfg, mem, w), Busy(cfg, m, w, g));
    FollowStep(cfg, Start(cfg, mem, w), i, m, g, Writing(w),
               Published(cfg, w), Fill(w, symbol, b + 4), EmptyCache(), {});
  }

  lemma ReachesShape(cfg: Config, s: State, s': State)
    requires Reaches(cfg, s, s')
    ensures Shape(cfg, s) && Shape(cfg, s')
  {
  }

  /** Filling the cache and returning the symbol for `w`. */
  lemma ReachReturned(cfg: Config, mem: seq<Byte>, w: Str)
    requires Fits(cfg, w) && |mem| == cfg.capacity + 4
    ensures Reaches(cfg, Start(cfg, mem, w), Done(cfg, mem, w, Idle, {(w, Pack(Home(cfg, w), 0))}))
  {
    hide Written, Prefix8, Base, Pack, Published, FillSlot, LineBase, Configured, Reaches, Start, ValidUtf8, EmptyCache;
    var i, m := Home(cfg, w), Written(cfg, mem, w, 4 + |w|);
    var b, symbol := Base(cfg, i), Pack(i, 0);
    ReachReleased(cfg, mem, w);
    var before := One(cfg, i, m, Published(cfg, w), Fill(w, symbol, b + 4), EmptyCache(), {});
    var after := Done(cfg, mem, w, Idle, {(w, symbol)});
    ReachesShape(cfg, Start(cfg, mem, w), before);
    EmptyProbe(m, cfg.hash(w), w);
    assert StepThread(cfg, before, 0).value.threads == after.threads;
    assert StepThread(cfg, before, 0).value.returned == after.returned;
    Follow(cfg, Start(cfg, mem, w), before, Step, after);
  }

  // ----- the misread

  /** An arena whose unwritten bytes happen to continue the misread text. */
  ghost predicate Arena(cfg: Config, mem: seq<Byte>, v: Str) {
    && |v| > 8 && Fits(cfg, v) && Fits(cfg, Shifted(v)) && |mem| == cfg.capacity + 4
    && var p := Base(cfg, Home(cfg, Shifted(v))) + 4 + |v|;
       p + 4 <= |mem| && mem[p..p + 4] == v[|v| - 4..]
  }

  /** The misplaced comparison accepts the cached record of the shifted value. */
  lemma Misread(cfg: Config, mem: seq<Byte>, v: Str)
    requires Arena(cfg, mem, v) && v[..4] == v[4..8]
    ensures var w := Shifted(v); var p := Base(cfg, Home(cfg, w)) + 8;
            && |w| == |v| && Prefix8(w) == Prefix8(v)
            && p + |v| <= |mem| && Written(cfg, mem, w, 4 + |w|)[p..p + |v|] == v
  {
    hide Base, IsShardCount, Storable;
    var w, n := Shifted(v), |v|;
    var b := Base(cfg, Home(cfg, w));
    assert w[..4] == v[..4] && w[4..8] == v[..4];
    RegionBounds(cfg, Home(cfg, w));
    var m := Written(cfg, mem, w, 4 + n);
    assert m[b + 4..b + 4 + n] == Image(w)[4..] == w;
    assert m[b + 4 + n..b + 8 + n] == mem[b + 4 + n..b + 8 + n];
    assert m[b + 8..b + 8 + n] == m[b + 4..b + 4 + n][4..] + m[b + 4 + n..b + 8 + n];
    assert w[4..] == v[..n - 4];
    assert v == v[..n - 4] + v[n - 4..];
  }

  lemma Remainder(a: nat, k: nat, r: nat)
    requires a == CACHE_SIZE * k + r && r < CACHE_SIZE
    ensures a % CACHE_SIZE == r
  {
    assert a / CACHE_SIZE == k;
  }

  /** The cache index lies in the low 32 bits. */
  lemma LowBits(a: nat)
    ensures CacheIndex(a) == CacheIndex(a % U32_SIZE)
  {
    var q, low := a / U32_SIZE, a % U32_SIZE;
    Remainder(a, 0x40_0000 * q + low / CACHE_SIZE, low % CACHE_SIZE);
  }

  /** Equal low bits give the same cache line. */
  lemma SameLine(a: nat, b: nat)
    requires a % U32_SIZE == b % U32_SIZE
    ensures LineBase(a) == LineBase(b)
  {
    hide CacheIndex;
    LowBits(a);
    LowBits(b);
  }

  /** The probe for `v` takes the cell of the shifted value for its own. */
  lemma ProbeWrong(cfg: Config, mem: seq<Byte>, v: Str)
    requires Arena(cfg, mem, v) && v[..4] == v[4..8] && cfg.hash(v) % U32_SIZE == cfg.hash(Shifted(v)) % U32_SIZE
    ensures var w := Shifted(v);
            && |w| == |v|
            && ProbeCache(Written(cfg, mem, w, 4 + |w|), CacheWith(cfg, w), 1, cfg.hash(v), v)
               == Some(Pack(Home(cfg, w), 0))
  {
    Misread(cfg, mem, v);
    SameLine(cfg.hash(v), cfg.hash(Shifted(v)));
    hide Written, Prefix8, Shifted, Base, Pack, Configured, Storable, LineBase;
    var w := Shifted(v);
    assert CacheWith(cfg, w)[LineBase(cfg.hash(w))] == FilledCell(cfg, w);
    assert CellMatches(FilledCell(cfg, w), 1, cfg.hash(v), v);
  }

  lemma ReachWrong(cfg: Config, mem: seq<Byte>, v: Str)
    requires Arena(cfg, mem, v) && v[..4] == v[4..8] && cfg.hash(v) % U32_SIZE == cfg.hash(Shifted(v)) % U32_SIZE
    ensures var w := Shifted(v); var symbol := Pack(Home(cfg, w), 0);
            Reaches(cfg, Start(cfg, mem, w), Done(cfg, mem, w, Idle, {(w, symbol), (v, symbol)}))
  {
    hide Written, Prefix8, ProbeCache, FilledCell, CacheWith, Published, Base, Pack, Shifted, Configured;
    var w := Shifted(v);
    var i, s, m := Home(cfg, w), Start(cfg, mem, w), Written(cfg, mem, w, 4 + |w|);
    var symbol := Pack(i, 0);
    ReachReturned(cfg, mem, w);
    StartCall(cfg, s, i, m, Published(cfg, w), CacheWith(cfg, w), {(w, symbol)}, v);
    ProbeWrong(cfg, mem, v);
    var before := Done(cfg, mem, w, Probe(v, true), {(w, symbol)});
    var after := Done(cfg, mem, w, Idle, {(w, symbol), (v, symbol)});
    assert StepThread(cfg, before, 0).value.threads == after.threads;
    assert StepThread(cfg, before, 0).value.returned == after.returned;
    Follow(cfg, s, before, Step, after);
  }

  function Junk(cfg: Config, p: nat, v: Str): (mem: seq<Byte>)
    requires |v| > 8 && 4 <= p && p + 4 <= cfg.capacity + 4 && cfg.count < U32_SIZE
    ensures |mem| == cfg.capacity + 4 && mem[..4] == Le32(cfg.count) && mem[p..p + 4] == v[|v| - 4..]
  {
    Le32(cfg.count) + seq(p - 4, _ => 0) + v[|v| - 4..] + seq(cfg.capacity - p, _ => 0)
  }

  /** The start of the witness is a new interner. */
  lemma StartInit(cfg: Config, mem: seq<Byte>, w: Str)
    requires Configured(cfg) && |mem| == cfg.capacity + 4 && Word32(mem[..4]) == cfg.count
    ensures Init(cfg, Start(cfg, mem, w)) && !Start(cfg, mem, w).mended
  {
    hide LoadedShard, Configured, Base;
    var s := Start(cfg, mem, w);
    forall i | 0 <= i < |s.shards|
      ensures s.shards[i] == LoadedShard(cfg, i, s.shards[i].strings) && Strings(s)[i] == []
    {
      NewIsLoaded(cfg, i);
    }
  }

  /**
    For every value that is not trusted there is a new interner and a run of a single
    thread that is given the symbol of a different string for the value.
   */
  lemma CacheUnsafeFails(cfg: Config, v: Str) returns (s0: State, moves: seq<(nat, Move)>, symbol: nat)
    requires Configured(cfg) && Storable(v) && !Trusted(cfg, false, v)
    ensures Init(cfg, s0) && !s0.mended && Run(cfg, s0, moves).Some?
    ensures var s := Run(cfg, s0, moves).value;
            && Shifted(v) != v && (v, symbol) in s.returned && (Shifted(v), symbol) in s.returned
            && 0 < symbol < U32_SIZE && Resolve(Strings(s), symbol) == Some(Shifted(v))
  {
    hide Base, Written, Prefix8, Init, Run;
    var w := Shifted(v);
    assert Fits(cfg, v) && Fits(cfg, w);
    var i := Home(cfg, w);
    RegionBounds(cfg, i);
    var mem := Junk(cfg, Base(cfg, i) + 4 + |v|, v);
    s0, symbol := Start(cfg, mem, w), Pack(i, 0);
    StartInit(cfg, mem, w);
    ReachWrong(cfg, mem, v);
    moves :| Run(cfg, s0, moves) == Some(Done(cfg, mem, w, Idle, {(w, symbol), (v, symbol)}));
    PackRoundTrip(i, 0);
  }

  lemma {:induction false} AsciiValid(v: Str)
    requires forall k | 0 <= k < |v| :: v[k] < 0x80
    ensures ValidUtf8(v)
  {
    if v != [] { AsciiValid(v[1..]); }
  }

  /** Values exist that are safe only if the hash tells them apart: `abcdabcdx` from `abcdabcda`. */
  lemma CacheUnsafeExample()
    ensures var v: Str := [97, 98, 99, 100, 97, 98, 99, 100, 120];
            Storable(v) && !CacheSafe(v) && Shifted(v) == [97, 98, 99, 100, 97, 98, 99, 100, 97]
  {
    hide ValidUtf8;
    var v: Str := [97, 98, 99, 100, 97, 98, 99, 100, 120];
    AsciiValid(v);
    AsciiValid(Shifted(v));
    assert v[8] != Shifted(v)[8];
  }
}
