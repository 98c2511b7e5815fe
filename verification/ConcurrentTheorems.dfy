/**
  What the invariant gives for whole runs from a fresh interner.
 */
module ConcurrentTheorems {
  import opened Bytes
  import opened Records
  import opened Symbols
  import opened InternerModel
  import opened ConcurrentInterner
  import opened ConcurrentShard
  import opened ConcurrentSafety

  lemma LoadedSlots(cfg: Config, i: nat, vs: seq<Str>, k: nat)
    ensures SlotValue(LoadedChunks(cfg, i, vs), k) == OffsetOrZero(cfg, i, vs, k)
  {
    hide Offset;
    var c := ChunkOf(k);
    assert c * CHUNK_SIZE + SlotOf(k) == k;
    if c in LoadedChunks(cfg, i, vs) { assert LoadedChunks(cfg, i, vs)[c] == LoadedChunk(cfg, i, vs, c); }
  }

  /** A shard as it is loaded is in order. */
  lemma LoadedOk(cfg: Config, mem: seq<Byte>, i: nat, vs: seq<Str>)
    requires Configured(cfg) && i < cfg.count && |mem| == cfg.capacity + 4
    requires ShardStrings(cfg, i, vs) && ShardFits(cfg, vs) && HoldsAt(mem, Base(cfg, i), vs)
    ensures ShardOk(cfg, mem, i, LoadedShard(cfg, i, vs))
  {
    hide ShardStrings, HoldsAt, Base, Off, EntryOf, SlotValue, LoadedChunk;
    var sh := LoadedShard(cfg, i, vs);
    forall k: nat ensures SlotValue(sh.chunks, k) == OffsetOrZero(cfg, i, vs, k) { LoadedSlots(cfg, i, vs, k); }
    assert forall c | c in sh.chunks :: |LoadedChunk(cfg, i, vs, c)| == CHUNK_SIZE by {
      forall c | c in sh.chunks ensures |LoadedChunk(cfg, i, vs, c)| == CHUNK_SIZE { ChunkLength(cfg, i, vs, c); }
    }
    assert SlotsOk(cfg, i, sh);
    assert EntriesOk(cfg, i, sh);
  }

  lemma ChunkLength(cfg: Config, i: nat, vs: seq<Str>, c: nat)
    ensures |LoadedChunk(cfg, i, vs, c)| == CHUNK_SIZE
  {
  }

  lemma InitInv(cfg: Config, s: State)
    requires Init(cfg, s)
    ensures Inv(cfg, s)
  {
    hide LoadedShard, ShardOk, HoldsAt, ShardStrings, ShardFits, Base, PcOk;
    forall i | 0 <= i < |s.shards| ensures ShardOk(cfg, s.mem, i, s.shards[i]) {
      var vs := s.shards[i].strings;
      assert Strings(s)[i] == vs;
      LoadedOk(cfg, s.mem, i, vs);
    }
    forall t | 0 <= t < |s.threads| ensures ThreadOk(cfg, s.mended, s.id, s.shards, s.threads[t]) {
      IdleOk(cfg, s.mended, s.shards);
    }
  }

  lemma IdleOk(cfg: Config, m: bool, shards: seq<Shard>)
    ensures PcOk(cfg, m, shards, Idle)
  {
  }

  /** The interner that holds `shards`, in an arena that holds their records. */
  function Loaded(cfg: Config, id: nat, mended: bool, mem: seq<Byte>, shards: Shards, threads: seq<Thread>): State {
    State(id, mended, mem, seq(|shards|, i requires 0 <= i < |shards| => LoadedShard(cfg, i, shards[i])), threads, {},
          false)
  }

  /** Whatever well-formed interner was loaded, runs can start from it. */
  lemma LoadedStarts(cfg: Config, id: nat, mended: bool, mem: seq<Byte>, shards: Shards, threads: seq<Thread>)
    requires WellFormed(cfg, shards) && id > 0 && |mem| == cfg.capacity + 4 && Word32(mem[..4]) == cfg.count
    requires forall i | 0 <= i < |shards| :: HoldsAt(mem, Base(cfg, i), shards[i])
    requires forall t | 0 <= t < |threads| :: threads[t].pc.Idle?
    requires forall t, k | 0 <= t < |threads| && 0 <= k < CACHE_SIZE :: threads[t].cache[k].id != id
    ensures Init(cfg, Loaded(cfg, id, mended, mem, shards, threads))
    ensures Strings(Loaded(cfg, id, mended, mem, shards, threads)) == shards
  {
    hide WellFormed, LoadedChunks, HoldsAt;
    WellFormedCount(cfg, shards);
    assert Strings(Loaded(cfg, id, mended, mem, shards, threads)) == shards;
  }

  lemma WellFormedCount(cfg: Config, shards: Shards)
    requires WellFormed(cfg, shards)
    ensures Configured(cfg) && |shards| == cfg.count
  {
  }

  /** An idle thread can begin any call. */
  lemma AnyCall(cfg: Config, s: State, t: nat, v: Str, insert: bool, symbol: Symbol)
    requires Shape(cfg, s) && !s.crashed && t < |s.threads| && s.threads[t].pc.Idle?
    ensures ValidUtf8(v) && |v| < MAX_LEN ==> Do(cfg, s, t, Call(v, insert)).Some?
    ensures ShardId(symbol) != STATIC_SHARD ==> Do(cfg, s, t, Resolving(symbol)).Some?
    ensures Do(cfg, s, t, Snapshot).Some?
  {
    hide ValidUtf8, Configured;
  }

  /** The invariant holds in every state of every run, strings only accumulate, answers are never withdrawn. */
  lemma {:induction false} RunKeeps(cfg: Config, s: State, moves: seq<(nat, Move)>)
    requires Inv(cfg, s) && Run(cfg, s, moves).Some?
    ensures var s' := Run(cfg, s, moves).value;
            Inv(cfg, s') && AllGrow(s.shards, s'.shards) && s.returned <= s'.returned && s'.mended == s.mended
    decreases |moves|
  {
    hide ShardsOk, ThreadOk, ReturnedOk, StepThread, Do;
    if moves != [] {
      var mid := Run(cfg, s, moves[..|moves| - 1]).value;
      RunKeeps(cfg, s, moves[..|moves| - 1]);
      DoKeeps(cfg, mid, moves[|moves| - 1].0, moves[|moves| - 1].1);
      assert forall i | 0 <= i < |s.shards| :: Grows(s.shards[i], mid.shards[i]);
    }
  }

  /** Interned strings and their symbols determine each other. */
  lemma InternedUnique(cfg: Config, mem: seq<Byte>, shards: seq<Shard>, v: Str, a: nat, w: Str, b: nat)
    requires Configured(cfg) && |shards| == cfg.count && ShardsOk(cfg, mem, shards)
    requires Interned(cfg, shards, v, a) && Interned(cfg, shards, w, b)
    ensures v == w <==> a == b
    ensures 0 < a < U32_SIZE
  {
    var i, k := Position(cfg, mem, shards, v, a);
    var j, l := Position(cfg, mem, shards, w, b);
    if !IsStatic(v) && !IsStatic(w) && i == j && k != l {
      assert ShardStrings(cfg, i, shards[i].strings);
    }
  }

  /** The shard and index behind a symbol. */
  lemma Position(cfg: Config, mem: seq<Byte>, shards: seq<Shard>, v: Str, symbol: nat) returns (i: nat, k: nat)
    requires Configured(cfg) && |shards| == cfg.count && ShardsOk(cfg, mem, shards)
    requires Interned(cfg, shards, v, symbol)
    ensures symbol == Pack(i, k) && k < INDEX_LIMIT && 0 < symbol < U32_SIZE
    ensures if IsStatic(v) then i == STATIC_SHARD && k == (if v == [] then 0 else v[0] + 1)
            else i == ShardOf(cfg, v) && k < Entered(shards[i]) && shards[i].strings[k] == v
  {
    if IsStatic(v) && symbol == StaticSymbol(v) {
      i, k := STATIC_SHARD, if v == [] then 0 else v[0] + 1;
    } else {
      var i': nat, k': nat, text: nat :| InternedAs(cfg, shards, i', k', v, symbol, text);
      i, k := i', k';
      assert ShardOk(cfg, mem, i, shards[i]);
      assert ShardStrings(cfg, i, shards[i].strings) && Belongs(cfg, i, v);
    }
  }

  /**
    In every interleaving of any number of threads, on an interner that is new or
    loaded, equal strings get one symbol and different strings get different symbols,
    and every symbol is a nonzero u32.
   */
  lemma OneSymbolPerString(cfg: Config, s0: State, moves: seq<(nat, Move)>, v: Str, a: nat, w: Str, b: nat)
    requires Init(cfg, s0) && Run(cfg, s0, moves).Some?
    requires (v, a) in Run(cfg, s0, moves).value.returned && (w, b) in Run(cfg, s0, moves).value.returned
    requires Trusted(cfg, s0.mended, v) && Trusted(cfg, s0.mended, w)
    ensures v == w <==> a == b
    ensures 0 < a < U32_SIZE
  {
    InitInv(cfg, s0);
    RunKeeps(cfg, s0, moves);
    var s := Run(cfg, s0, moves).value;
    assert Interned(cfg, s.shards, (v, a).0, (v, a).1) && Interned(cfg, s.shards, (w, b).0, (w, b).1);
    InternedUnique(cfg, s.mem, s.shards, v, a, w, b);
  }

  /** The string that a slice into the arena denotes. */
  function Text(mem: seq<Byte>, view: View): Option<Str> {
    if view.text + view.len <= |mem| then Some(mem[view.text..view.text + view.len]) else None
  }

  /** A finished lock-free read holds the complete string of its index, never part of one. */
  lemma ViewsWhole(cfg: Config, s: State, t: nat)
    requires Inv(cfg, s) && t < |s.threads| && s.threads[t].pc.Resolved? && s.threads[t].pc.view.Some?
    ensures var pc := s.threads[t].pc;
            && pc.shard < |s.shards| && pc.index < |s.shards[pc.shard].strings|
            && Text(s.mem, pc.view.value) == Some(s.shards[pc.shard].strings[pc.index])
  {
    var pc := s.threads[t].pc;
    assert ThreadOk(cfg, s.mended, s.id, s.shards, s.threads[t]);
    assert ShardOk(cfg, s.mem, pc.shard, s.shards[pc.shard]);
    ReadsBack(cfg, s.mem, pc.shard, s.shards[pc.shard], pc.index);
  }

  /** How far a lock-free `resolve` of index `k` of shard `i` has come after `n` of its own steps, if all went well. */
  ghost predicate Stage(pc: Pc, i: nat, k: nat, n: nat) {
    match n
    case 0 => pc == ResolveLen(i, k)
    case 1 => pc == ResolveChunk(i, k)
    case 2 => pc == ResolveOffset(i, k)
    case 3 => pc.ResolveText? && pc.shard == i && pc.index == k
    case _ => pc.Resolved? && pc.shard == i && pc.index == k && pc.view.Some?
  }

  function StepsOf(moves: seq<(nat, Move)>, t: nat): nat {
    if moves == [] then 0 else
    StepsOf(moves[..|moves| - 1], t) + if moves[|moves| - 1] == (t, Step) then 1 else 0
  }

  lemma OthersKeep(cfg: Config, s: State, u: nat, m: Move, t: nat)
    requires Shape(cfg, s) && t < |s.threads| && u != t && Do(cfg, s, u, m).Some?
    ensures var s' := Do(cfg, s, u, m).value; |s'.threads| == |s.threads| && s'.threads[t] == s.threads[t]
  {
    hide StepThread;
    if m == Step { OthersStand(cfg, s, u, t); }
  }

  lemma OthersStand(cfg: Config, s: State, u: nat, t: nat)
    requires Shape(cfg, s) && t < |s.threads| && u < |s.threads| && u != t && StepThread(cfg, s, u).Some?
    ensures var s' := StepThread(cfg, s, u).value; |s'.threads| == |s.threads| && s'.threads[t] == s.threads[t]
  {
    hide ProbeCache, Work, FindEntry, FillSlot, SlotValue, Base, Configured;
    if Interning(s.threads[u].pc) { hide StepRead, StepSnapshot; }
  }

  /** Once a string is interned, no step of a read of its symbol can come back empty. */
  lemma ResolveStep(cfg: Config, s: State, t: nat, v: Str, symbol: nat, n: nat)
    requires Inv(cfg, s) && t < |s.threads| && Interned(cfg, s.shards, v, symbol) && !IsStatic(v) && n < 4
    requires 0 < symbol < U32_SIZE && Stage(s.threads[t].pc, ShardId(symbol), Index(symbol), n)
    ensures StepThread(cfg, s, t).Some?
    ensures var s' := StepThread(cfg, s, t).value;
            t < |s'.threads| && Stage(s'.threads[t].pc, ShardId(symbol), Index(symbol), n + 1)
  {
    hide EntriesOk, CacheOk, Work, Prefix8, RegionOk, PhaseOk, Base, ProbeCache, FindEntry;
    var i, k := Position(cfg, s.mem, s.shards, v, symbol);
    PackRoundTrip(i, k);
    var sh := s.shards[i];
    assert ShardOk(cfg, s.mem, i, sh);
    RegionBounds(cfg, i);
    assert SlotValue(sh.chunks, k) == Offset(cfg, i, sh.strings, k);
    assert ThreadOk(cfg, s.mended, s.id, s.shards, s.threads[t]);
    if n == 3 { ReadsBack(cfg, s.mem, i, sh, k); }
  }

  /**
    A returned symbol resolves for ever: a lock-free read of it that starts in
    any later state is done after four of its own steps, whatever the other
    threads do in between, and has found the string.
   */
  lemma {:induction false} ResolveFinds(cfg: Config, s: State, moves: seq<(nat, Move)>, t: nat, v: Str, symbol: nat)
    requires Inv(cfg, s) && (v, symbol) in s.returned && Trusted(cfg, s.mended, v) && !IsStatic(v)
             && 0 < symbol < U32_SIZE
    requires t < |s.threads| && s.threads[t].pc == ResolveLen(ShardId(symbol), Index(symbol))
    requires Run(cfg, s, moves).Some? && StepsOf(moves, t) <= 4
    ensures var s' := Run(cfg, s, moves).value;
            && t < |s'.threads| && Stage(s'.threads[t].pc, ShardId(symbol), Index(symbol), StepsOf(moves, t))
            && (StepsOf(moves, t) == 4 ==> Text(s'.mem, s'.threads[t].pc.view.value) == Some(v))
    decreases |moves|
  {
    hide ShardsOk, ThreadOk, ReturnedOk, Do, Text, ShardId, Index, Trusted, Stage;
    RunKeeps(cfg, s, moves);
    if moves == [] {
      StageStarts(ShardId(symbol), Index(symbol));
    } else {
      var front, last := moves[..|moves| - 1], moves[|moves| - 1];
      ResolveFinds(cfg, s, front, t, v, symbol);
      RunKeeps(cfg, s, front);
      StageKeeps(cfg, Run(cfg, s, front).value, last.0, last.1, t, v, symbol, StepsOf(front, t));
    }
    if StepsOf(moves, t) == 4 { ReadWhole(cfg, Run(cfg, s, moves).value, t, v, symbol); }
  }

  lemma StageStarts(i: nat, k: nat)
    ensures Stage(ResolveLen(i, k), i, k, 0)
  {
  }

  /** One move of any thread: only a step of the reader takes the read on. */
  lemma StageKeeps(cfg: Config, s: State, u: nat, m: Move, t: nat, v: Str, symbol: nat, n: nat)
    requires Inv(cfg, s) && (v, symbol) in s.returned && Trusted(cfg, s.mended, v) && !IsStatic(v)
    requires 0 < symbol < U32_SIZE && t < |s.threads| && Do(cfg, s, u, m).Some?
    requires Stage(s.threads[t].pc, ShardId(symbol), Index(symbol), n)
             && n + (if u == t && m == Step then 1 else 0) <= 4
    ensures var s' := Do(cfg, s, u, m).value;
            && t < |s'.threads|
            && Stage(s'.threads[t].pc, ShardId(symbol), Index(symbol), n + if u == t && m == Step then 1 else 0)
  {
    hide ShardsOk, ThreadOk, StepThread, ShardId, Index, Trusted;
    if u != t {
      OthersKeep(cfg, s, u, m, t);
    } else if m == Step {
      assert Interned(cfg, s.shards, (v, symbol).0, (v, symbol).1);
      ResolveStep(cfg, s, t, v, symbol, n);
    }
  }

  lemma ReadWhole(cfg: Config, s: State, t: nat, v: Str, symbol: nat)
    requires Inv(cfg, s) && (v, symbol) in s.returned && Trusted(cfg, s.mended, v) && !IsStatic(v)
             && 0 < symbol < U32_SIZE
    requires t < |s.threads| && Stage(s.threads[t].pc, ShardId(symbol), Index(symbol), 4)
    ensures Text(s.mem, s.threads[t].pc.view.value) == Some(v)
  {
    hide ShardOk, CacheOk;
    assert Interned(cfg, s.shards, (v, symbol).0, (v, symbol).1);
    var i, k := Position(cfg, s.mem, s.shards, v, symbol);
    PackRoundTrip(i, k);
    ViewsWhole(cfg, s, t);
  }

  /** Whenever the cache answers for a trusted value, the hash table would answer the same. */
  lemma CacheRefines(cfg: Config, s: State, t: nat, v: Str, symbol: nat)
    requires Inv(cfg, s) && t < |s.threads| && Storable(v) && Trusted(cfg, s.mended, v)
    requires ProbeCache(s.mem, s.threads[t].cache, s.id, cfg.hash(v), v) == Some(symbol)
    ensures var r := FindEntry(cfg, s.mem, s.shards[ShardOf(cfg, v)], v); r.Some? && r.value.symbol == symbol
  {
    assert ThreadOk(cfg, s.mended, s.id, s.shards, s.threads[t]);
    ProbeSound(cfg, s.mended, s.mem, s.shards, s.threads[t].cache, s.id, v, symbol);
    var i, k := Position(cfg, s.mem, s.shards, v, symbol);
    var sh := s.shards[i];
    assert ShardOk(cfg, s.mem, i, sh);
    LookupMeaning(cfg, s.mem, i, sh, v);
    var e := FindEntry(cfg, s.mem, sh, v).value;
    var l: nat :| EnteredAs(cfg, i, sh, l, v, e.symbol, TextOf(sh, e.symbol));
    assert ShardStrings(cfg, i, sh.strings);
    assert sh.strings[l] == sh.strings[k];
  }

  /** Had the cache kept the offset of the record, symbols and strings would match for all values, in every run. */
  lemma MendedOneSymbolPerString(cfg: Config, s0: State, moves: seq<(nat, Move)>, v: Str, a: nat, w: Str, b: nat)
    requires Init(cfg, s0) && s0.mended && Run(cfg, s0, moves).Some?
    requires (v, a) in Run(cfg, s0, moves).value.returned && (w, b) in Run(cfg, s0, moves).value.returned
    ensures v == w <==> a == b
  {
    hide Init, Run;
    OneSymbolPerString(cfg, s0, moves, v, a, w, b);
  }

  /** A string once interned is found by every lookup. */
  lemma InternedFound(cfg: Config, s: State, v: Str, symbol: nat)
    requires Inv(cfg, s) && Interned(cfg, s.shards, v, symbol) && !IsStatic(v)
    ensures FindEntry(cfg, s.mem, s.shards[ShardOf(cfg, v)], v).Some?
  {
    hide ShardOk, FindEntry, ThreadOk, ReturnedOk;
    var i, k := Position(cfg, s.mem, s.shards, v, symbol);
    assert ShardOk(cfg, s.mem, i, s.shards[i]);
    LookupMeaning(cfg, s.mem, i, s.shards[i], v);
  }

  /** No step turns a lookup of a returned string into a miss. */
  lemma NeverMisses(cfg: Config, s: State, u: nat, m: Move, t: nat, v: Str, symbol: nat)
    requires Inv(cfg, s) && (v, symbol) in s.returned && Trusted(cfg, s.mended, v)
    requires t < |s.threads| && s.threads[t].pc != NotFound(v) && Do(cfg, s, u, m).Some?
    ensures var s' := Do(cfg, s, u, m).value; t < |s'.threads| && s'.threads[t].pc != NotFound(v)
  {
    hide ShardsOk, CacheOk, ProbeCache, Work, FillSlot, StepRead, StepSnapshot, Trusted;
    if u != t {
      OthersKeep(cfg, s, u, m, t);
    } else if s.threads[t].pc.Reading? && s.threads[t].pc.value == v {
      assert ThreadOk(cfg, s.mended, s.id, s.shards, s.threads[t]);
      assert Interned(cfg, s.shards, (v, symbol).0, (v, symbol).1);
      InternedFound(cfg, s, v, symbol);
    } else {
      OtherCalls(cfg, s, t, m, v);
    }
  }

  lemma OtherCalls(cfg: Config, s: State, t: nat, m: Move, v: Str)
    requires Shape(cfg, s) && t < |s.threads| && s.threads[t].pc != NotFound(v) && Do(cfg, s, t, m).Some?
    requires !(s.threads[t].pc.Reading? && s.threads[t].pc.value == v)
    ensures var s' := Do(cfg, s, t, m).value; t < |s'.threads| && s'.threads[t].pc != NotFound(v)
  {
    hide ProbeCache, Work, FindEntry, FillSlot, SlotValue, Base, Configured;
  }

  /** Once a symbol was returned for a string, no `get` of it ends with none, in whatever state it began. */
  lemma {:induction false} GetFinds(cfg: Config, s: State, moves: seq<(nat, Move)>, t: nat, v: Str, symbol: nat)
    requires Inv(cfg, s) && (v, symbol) in s.returned && Trusted(cfg, s.mended, v)
    requires t < |s.threads| && s.threads[t].pc != NotFound(v) && Run(cfg, s, moves).Some?
    ensures var s' := Run(cfg, s, moves).value; t < |s'.threads| && s'.threads[t].pc != NotFound(v)
    decreases |moves|
  {
    hide ShardsOk, ThreadOk, ReturnedOk, Do;
    if moves != [] {
      var front, last := moves[..|moves| - 1], moves[|moves| - 1];
      GetFinds(cfg, s, front, t, v, symbol);
      RunKeeps(cfg, s, front);
      NeverMisses(cfg, Run(cfg, s, front).value, last.0, last.1, t, v, symbol);
    }
  }

  // ----- snapshots

  /** Eight bytes per record bound the number of strings in a region. */
  lemma CountBounded(cfg: Config, i: nat, vs: seq<Str>)
    requires Configured(cfg) && AllBelong(cfg, i, vs) && Size(vs) <= cfg.region
    requires cfg.region < 8 * (INDEX_LIMIT + 1)
    ensures |vs| <= INDEX_LIMIT
  {
    forall k | 0 <= k < |vs| ensures |vs[k]| >= 1 {
      assert Belongs(cfg, i, vs[k]);
    }
    OffAtLeast(vs, |vs|);
  }

  /** What a snapshot fixed fits the regions, string for string. */
  lemma TakenFitting(cfg: Config, m: bool, mem: seq<Byte>, shards: seq<Shard>, taken: seq<seq<Str>>,
                     known: set<(Str, nat)>)
    requires Configured(cfg) && |shards| == |taken| == cfg.count && ShardsOk(cfg, mem, shards)
    requires TakenOk(cfg, m, shards, taken, known)
    ensures Fitting(cfg, taken)
  {
    hide KnownOk, SlotsOk, EntriesOk, PhaseOk;
    forall j | 0 <= j < |taken| ensures AllBelong(cfg, j, taken[j]) && Size(taken[j]) <= cfg.region {
      var vs, n := shards[j].strings, |taken[j]|;
      assert ShardOk(cfg, mem, j, shards[j]);
      assert taken[j] == vs[..n];
      forall k | 0 <= k < n ensures Belongs(cfg, j, taken[j][k]) {
        assert Belongs(cfg, j, vs[k]);
      }
      HoldsPrefix(mem, Base(cfg, j), vs, n);
      OffMonotone(vs, n, |vs|);
    }
  }

  /** From four shards on, symbols can name all that fits. */
  lemma FittingNameable(cfg: Config, shards: Shards)
    requires Fitting(cfg, shards) && cfg == Standard(cfg.count, cfg.hash) && cfg.count >= 4
    ensures Nameable(shards)
  {
    StandardConfigured(cfg.count, cfg.hash);
    forall j | 0 <= j < |shards| ensures |shards[j]| <= INDEX_LIMIT { CountBounded(cfg, j, shards[j]); }
  }

  lemma KnownResolves(cfg: Config, m: bool, shards: seq<Shard>, taken: seq<seq<Str>>, known: set<(Str, nat)>, v: Str,
                      symbol: nat)
    requires |taken| == |shards| <= 128 && KnownOk(cfg, m, shards, taken, known)
    requires (v, symbol) in known && Trusted(cfg, m, v)
    ensures 0 < symbol < U32_SIZE && Resolve(taken, symbol) == Some(v)
  {
    assert Trusted(cfg, m, (v, symbol).0);
    if IsStatic(v) && symbol == StaticSymbol(v) {
      assert v != [] ==> v == [v[0]];
      PackRoundTrip(STATIC_SHARD, if v == [] then 0 else v[0] + 1);
    } else {
      var i: nat, k: nat :| KnownAt(shards, taken, i, k, v, symbol);
      PackRoundTrip(i, k);
    }
  }

  /**
    A snapshot taken among running writers holds for every shard a prefix of its
    present strings, in which every symbol returned before the snapshot began still
    resolves. Read back, with or without UTF-8 checking, it gives exactly these
    strings if symbols can name them all and panics otherwise; from four shards on
    they always can.
   */
  lemma SnapshotDecodes(cfg: Config, s: State, t: nat, checked: bool)
    requires Inv(cfg, s) && t < |s.threads| && s.threads[t].pc.Snapped?
    requires cfg == Standard(cfg.count, cfg.hash)
    ensures var pc := s.threads[t].pc;
            && Rebuild(cfg.hash, pc.out, checked) == (if Nameable(pc.taken) then Some(pc.taken) else None)
            && (cfg.count >= 4 ==> Nameable(pc.taken))
            && |pc.taken| == |s.shards|
            && (forall j | 0 <= j < |pc.taken| :: pc.taken[j] <= s.shards[j].strings)
            && (forall r | r in pc.known && Trusted(cfg, s.mended, r.0) ::
                  0 < r.1 < U32_SIZE && Resolve(pc.taken, r.1) == Some(r.0))
  {
    hide ShardOk, CacheOk, Trusted, Rebuild, Nameable, Fitting, IsSnapshot, Resolve;
    var pc := s.threads[t].pc;
    assert ThreadOk(cfg, s.mended, s.id, s.shards, s.threads[t]);
    StandardConfigured(cfg.count, cfg.hash);
    TakenFitting(cfg, s.mended, s.mem, s.shards, pc.taken, pc.known);
    SnapshotExact(cfg, pc.taken, pc.out, checked);
    if cfg.count >= 4 { FittingNameable(cfg, pc.taken); }
    forall r | r in pc.known && Trusted(cfg, s.mended, r.0)
      ensures 0 < r.1 < U32_SIZE && Resolve(pc.taken, r.1) == Some(r.0)
    {
      KnownResolves(cfg, s.mended, s.shards, pc.taken, pc.known, r.0, r.1);
    }
  }
}
