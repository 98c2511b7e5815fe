/**
  The interner under concurrency: any number of threads run `get_or_intern`,
  `get`, `resolve` and `bytes` in any interleaving, one atomic access at a time.
  A state holds the arena's bytes, every shard's atomics, hash table and lock,
  and every thread's position and thread-local cache. The locals of the thread
  that holds a write lock are kept in the lock.

  `strings`, `returned`, `taken` and `known` record history; no step reads them
  to decide anything.
 */
module ConcurrentInterner {
  import opened Bytes
  import opened Records
  import opened Symbols
  import opened InternerModel

  const CACHE_SIZE: nat := 1024

  /** Where the holder of a write lock stands. */
  datatype Phase =
    | Recheck
    | Copy(done: nat)
    | Push(offset: nat)
    | Chunk(offset: nat, index: nat)
    | Install(offset: nat, index: nat)
    | Slot(offset: nat, index: nat)
    | Enter(offset: nat, index: nat)
    | Found(symbol: nat, text: nat)

  datatype Lock =
    | Shared(readers: set<nat>)
    | Exclusive(tid: nat, value: Str, phase: Phase)

  datatype Shard = Shard(
    cursor: nat,
    poisoned: bool,
    len: nat,
    chunks: map<nat, seq<nat>>,
    entries: set<Entry>,
    lock: Lock,
    strings: seq<Str>)

  /** One slot of the thread-local cache; `id` 0 marks an empty slot. */
  datatype Cell = Cell(id: nat, hash: nat, len: nat, prefix: nat, offset: nat, symbol: nat)

  type Cache = c: seq<Cell> | |c| == CACHE_SIZE
    witness seq(CACHE_SIZE, _ => Cell(0, 0, 0, 0, 0, 0))

  /** A string slice that points into the arena. */
  datatype View = View(text: nat, len: nat)

  datatype Pc =
    | Idle
    | Probe(value: Str, insert: bool)
    | Lookup(value: Str, insert: bool)
    | Reading(value: Str, insert: bool)
    | NotFound(value: Str)
    | Missed(value: Str)
    | Writing(value: Str)
    | Fill(value: Str, symbol: nat, text: nat)
    | ResolveLen(shard: nat, index: nat)
    | ResolveChunk(shard: nat, index: nat)
    | ResolveOffset(shard: nat, index: nat)
    | ResolveText(shard: nat, index: nat, offset: nat)
    | Resolved(shard: nat, index: nat, view: Option<View>)
    | SnapCursors(used: seq<nat>, taken: seq<seq<Str>>, known: set<(Str, nat)>)
    | SnapCopy(used: seq<nat>, taken: seq<seq<Str>>, known: set<(Str, nat)>, next: nat, out: seq<Byte>)
    | Snapped(taken: seq<seq<Str>>, known: set<(Str, nat)>, out: seq<Byte>)
    | Panicked

  datatype Thread = Thread(pc: Pc, cache: Cache)

  /**
    `mem` is the arena and the four bytes behind it, which a cache probe may touch.
    `mended` is false in the source; if true, the cache keeps the offset of the
    record, as the probe expects, and not that of its text.
   */
  datatype State = State(
    id: nat,
    mended: bool,
    mem: seq<Byte>,
    shards: seq<Shard>,
    threads: seq<Thread>,
    returned: set<(Str, nat)>,
    crashed: bool)

  /** What a thread does next: start a call, or take one step of the call it is in. */
  datatype Move =
    | Call(value: Str, insert: bool)
    | Resolving(symbol: Symbol)
    | Snapshot
    | Step
    | Foreign(slot: nat, cell: Cell)

  // ----- the thread-local cache

  function CacheIndex(hash: nat): nat { hash % CACHE_SIZE }

  function LineBase(hash: nat): (b: nat)
    ensures b <= CacheIndex(hash) < b + 4 && b + 4 <= CACHE_SIZE
  {
    CacheIndex(hash) / 4 * 4
  }

  predicate CellMatches(cell: Cell, id: nat, hash: nat, v: Str) {
    cell.id == id && cell.hash == hash % U32_SIZE && cell.len == |v| && cell.prefix == Prefix8(v)
  }

  /** The first matching way of the four in the line. */
  function Candidate(cache: Cache, id: nat, hash: nat, v: Str): (r: Option<Cell>)
    ensures r.Some? ==> r.value in cache && CellMatches(r.value, id, hash, v)
  {
    var b := LineBase(hash);
    if CellMatches(cache[b], id, hash, v) then Some(cache[b])
    else if CellMatches(cache[b + 1], id, hash, v) then Some(cache[b + 1])
    else if CellMatches(cache[b + 2], id, hash, v) then Some(cache[b + 2])
    else if CellMatches(cache[b + 3], id, hash, v) then Some(cache[b + 3])
    else None
  }

  /**
    The cache probe of `get` and `get_or_intern`. Up to eight bytes the matching
    cell is the answer; beyond, the bytes four past the cached offset must equal
    the value. The cached offset is that of the text, not of its record.
   */
  function ProbeCache(mem: seq<Byte>, cache: Cache, id: nat, hash: nat, v: Str): Option<nat>
  {
    match Candidate(cache, id, hash, v)
    case None => None
    case Some(cell) =>
      var p := cell.offset + 4;
      if |v| <= 8 || (p + |v| <= |mem| && mem[p..p + |v|] == v) then Some(cell.symbol) else None
  }

  /** What the cache remembers of a text's place. */
  function CachedOffset(mended: bool, text: nat): nat { if mended && text >= 4 then text - 4 else text }

  /** The first empty way of the line, or else the way that the hash selects. */
  function FillSlot(cache: Cache, hash: nat): (k: nat)
    ensures k < CACHE_SIZE
  {
    var b := LineBase(hash);
    if cache[b].id == 0 then b
    else if cache[b + 1].id == 0 then b + 1
    else if cache[b + 2].id == 0 then b + 2
    else if cache[b + 3].id == 0 then b + 3
    else CacheIndex(hash)
  }

  /** The four ways that a hash may use. */
  predicate InLine(hash: nat, k: nat) { CacheIndex(hash) / 4 == k / 4 && k < CACHE_SIZE }

  /** A candidate is the first matching way of the line, and there is one exactly if some way matches. */
  lemma CandidateIff(cache: Cache, id: nat, hash: nat, v: Str)
    ensures match Candidate(cache, id, hash, v)
            case None => forall k: nat | InLine(hash, k) :: !CellMatches(cache[k], id, hash, v)
            case Some(cell) =>
              exists k: nat :: InLine(hash, k) && cache[k] == cell && CellMatches(cell, id, hash, v)
                          && forall j: nat | InLine(hash, j) && j < k :: !CellMatches(cache[j], id, hash, v)
  {
    hide CellMatches;
    var b := LineBase(hash);
    forall k: nat | InLine(hash, k) ensures k == b || k == b + 1 || k == b + 2 || k == b + 3 {}
    assert InLine(hash, b) && InLine(hash, b + 1) && InLine(hash, b + 2) && InLine(hash, b + 3);
  }

  /**
    The slot to fill is the first empty way of the line, or the hash's own if none is
    empty; what is filled in is found there, and answers for a text of up to eight bytes.
   */
  lemma FillFound(mem: seq<Byte>, cache: Cache, id: nat, hash: nat, v: Str, cell: Cell)
    requires CellMatches(cell, id, hash, v)
    ensures InLine(hash, FillSlot(cache, hash))
    ensures forall k: nat | InLine(hash, k) && cache[k].id == 0 ::
              cache[FillSlot(cache, hash)].id == 0 && FillSlot(cache, hash) <= k
    ensures (forall k: nat | InLine(hash, k) :: cache[k].id != 0) ==> FillSlot(cache, hash) == hash % 1024
    ensures Candidate(cache[FillSlot(cache, hash) := cell], id, hash, v).Some?
    ensures |v| <= 8 ==> ProbeCache(mem, cache[FillSlot(cache, hash) := cell], id, hash, v).Some?
  {
    hide CellMatches;
    var b, slot := LineBase(hash), FillSlot(cache, hash);
    forall k: nat | InLine(hash, k) ensures k == b || k == b + 1 || k == b + 2 || k == b + 3 {}
    assert cache[slot := cell][slot] == cell;
    assert InLine(hash, b) && InLine(hash, b + 1) && InLine(hash, b + 2) && InLine(hash, b + 3);
  }

  // ----- shards

  /** The offset array's cell for `index`, zero when its chunk is missing. */
  function SlotValue(chunks: map<nat, seq<nat>>, index: nat): nat {
    if ChunkOf(index) in chunks && SlotOf(index) < |chunks[ChunkOf(index)]|
    then chunks[ChunkOf(index)][SlotOf(index)] else 0
  }

  /** The text of the record at `offset`. */
  function ReadText(mem: seq<Byte>, offset: nat): Str {
    if offset + 4 > |mem| then [] else
    var len := Word32(mem[offset..offset + 4]);
    if offset + 4 + len > |mem| then [] else mem[offset + 4..offset + 4 + len]
  }

  predicate EntryMatches(cfg: Config, mem: seq<Byte>, sh: Shard, v: Str, e: Entry) {
    && e.hash == cfg.hash(v)
    && e.prefix == Prefix8(v)
    && 0 < e.symbol < U32_SIZE
    && ReadText(mem, SlotValue(sh.chunks, Index(e.symbol))) == v
  }

  /** The hash table lookup: some entry with the hash, the prefix and the string itself. */
  ghost function FindEntry(cfg: Config, mem: seq<Byte>, sh: Shard, v: Str): (r: Option<Entry>)
    ensures r.Some? ==> r.value in sh.entries && EntryMatches(cfg, mem, sh, v, r.value)
    ensures r.None? ==> forall e | e in sh.entries :: !EntryMatches(cfg, mem, sh, v, e)
  {
    if exists e :: e in sh.entries && EntryMatches(cfg, mem, sh, v, e)
    then var e :| e in sh.entries && EntryMatches(cfg, mem, sh, v, e); Some(e)
    else None
  }

  /** Offset of the text that `symbol` names, as the lookups compute it. */
  function TextOf(sh: Shard, symbol: nat): nat {
    if 0 < symbol < U32_SIZE then SlotValue(sh.chunks, Index(symbol)) + 4 else 0
  }

  function Zeros(): (z: seq<nat>)
    ensures |z| == CHUNK_SIZE && forall k | 0 <= k < |z| :: z[k] == 0
  {
    seq(CHUNK_SIZE, _ => 0)
  }

  function SetPhase(sh: Shard, phase: Phase): Shard
    requires sh.lock.Exclusive?
  {
    sh.(lock := sh.lock.(phase := phase))
  }

  /** A step of the critical section: the new memory and shard, and whether the thread goes on. */
  datatype Outcome = Outcome(mem: seq<Byte>, shard: Shard, failed: bool, crashed: bool)

  function Continue(mem: seq<Byte>, sh: Shard): Outcome { Outcome(mem, sh, false, false) }

  ghost function Work(cfg: Config, mem: seq<Byte>, s: nat, sh: Shard): (r: Option<Outcome>)
    requires Configured(cfg) && sh.lock.Exclusive? && |sh.lock.value| < MAX_LEN
    ensures r.Some? ==> |r.value.mem| == |mem|
  {
    var v := sh.lock.value;
    match sh.lock.phase
    case Recheck =>
      (match FindEntry(cfg, mem, sh, v)
       case Some(e) =>
         Some(Continue(mem, SetPhase(sh, Found(e.symbol, TextOf(sh, e.symbol)))))
       case None =>
         if sh.poisoned || sh.cursor + Padded(|v|) > cfg.region
         then Some(Outcome(mem, sh.(poisoned := true, lock := Shared({})), true, false))
         else Some(Continue(mem, SetPhase(sh, Copy(0)))))
    case Copy(done) =>
      var p := Base(cfg, s) + sh.cursor + done;
      if done < 4 + |v| then
        if p < |mem| then Some(Continue(mem[p := Image(v)[done]], SetPhase(sh, Copy(done + 1)))) else None
      else
        Some(Continue(mem, SetPhase(sh, Push(Base(cfg, s) + sh.cursor))
                           .(cursor := sh.cursor + Padded(|v|), strings := sh.strings + [v])))
    case Push(offset) =>
      Some(Continue(mem, SetPhase(sh, Chunk(offset, sh.len)).(len := sh.len + 1)))
    case Chunk(offset, index) =>
      Some(Continue(mem, SetPhase(sh, if ChunkOf(index) in sh.chunks then Slot(offset, index)
                                      else Install(offset, index))))
    case Install(offset, index) =>
      var chunks := if ChunkOf(index) in sh.chunks then sh.chunks
                    else sh.chunks[ChunkOf(index) := Zeros()];
      Some(Continue(mem, SetPhase(sh, Slot(offset, index)).(chunks := chunks)))
    case Slot(offset, index) =>
      if ChunkOf(index) in sh.chunks && SlotOf(index) < |sh.chunks[ChunkOf(index)]| then
        var chunk: seq<nat> := sh.chunks[ChunkOf(index)][SlotOf(index) := offset];
        Some(Continue(mem, SetPhase(sh, Enter(offset, index)).(chunks := sh.chunks[ChunkOf(index) := chunk])))
      else None
    case Enter(offset, index) =>
      if index >= INDEX_LIMIT then Some(Outcome(mem, sh, true, true)) else
      var entry := Entry(cfg.hash(v), Prefix8(v), Pack(s, index));
      Some(Continue(mem, SetPhase(sh, Found(Pack(s, index), offset + 4)).(entries := sh.entries + {entry})))
    case Found(_, _) =>
      Some(Continue(mem, sh.(lock := Shared({}))))
  }

  // ----- threads

  function At(s: State, t: nat, pc: Pc): State
    requires t < |s.threads|
  {
    s.(threads := s.threads[t := s.threads[t].(pc := pc)])
  }

  function WithShard(s: State, i: nat, sh: Shard): State
    requires i < |s.shards|
  {
    s.(shards := s.shards[i := sh])
  }

  /** A call returns `symbol` for `v`. */
  function Return(s: State, t: nat, v: Str, symbol: nat): State
    requires t < |s.threads|
  {
    At(s, t, Idle).(returned := s.returned + {(v, symbol)})
  }

  ghost predicate Shape(cfg: Config, s: State) {
    && Configured(cfg)
    && |s.shards| == cfg.count
    && |s.mem| == cfg.capacity + 4
  }

  /** A value that a call may carry past the static strings. */
  predicate Storable(v: Str) { !IsStatic(v) && ValidUtf8(v) && |v| < MAX_LEN }

  predicate Interning(pc: Pc) {
    pc.Probe? || pc.Lookup? || pc.Reading? || pc.NotFound? || pc.Missed? || pc.Writing? || pc.Fill?
  }

  /** A step of `get_or_intern` or `get`. */
  ghost function StepInterning(cfg: Config, s: State, t: nat): (r: Option<State>)
    requires Shape(cfg, s) && t < |s.threads| && Interning(s.threads[t].pc)
    ensures r.Some? ==> Shape(cfg, r.value)
  {
    match s.threads[t].pc
    case Probe(v, insert) =>
      (match ProbeCache(s.mem, s.threads[t].cache, s.id, cfg.hash(v), v)
       case Some(symbol) => Some(Return(s, t, v, symbol))
       case None => Some(At(s, t, Lookup(v, insert))))
    case Lookup(v, insert) =>
      var i := ShardOf(cfg, v);
      (match s.shards[i].lock
       case Shared(readers) =>
         Some(At(WithShard(s, i, s.shards[i].(lock := Shared(readers + {t}))), t, Reading(v, insert)))
       case Exclusive(_, _, _) => None)
    case Reading(v, insert) =>
      var i := ShardOf(cfg, v);
      (match s.shards[i].lock
       case Shared(readers) =>
         var s' := WithShard(s, i, s.shards[i].(lock := Shared(readers - {t})));
         (match FindEntry(cfg, s.mem, s.shards[i], v)
          case Some(e) =>
            Some(At(s', t, Fill(v, e.symbol, TextOf(s.shards[i], e.symbol))))
          case None => Some(At(s', t, if insert then Missed(v) else NotFound(v))))
       case Exclusive(_, _, _) => None)
    case NotFound(_) => Some(At(s, t, Idle))
    case Missed(v) =>
      var i := ShardOf(cfg, v);
      if s.shards[i].lock == Shared({}) && Storable(v)
      then Some(At(WithShard(s, i, s.shards[i].(lock := Exclusive(t, v, Recheck))), t, Writing(v)))
      else None
    case Writing(v) =>
      var i := ShardOf(cfg, v);
      var sh := s.shards[i];
      if !(sh.lock.Exclusive? && sh.lock.tid == t && sh.lock.value == v && |v| < MAX_LEN) then None else
      (match Work(cfg, s.mem, i, sh)
       case None => None
       case Some(o) =>
         var s' := WithShard(s.(mem := o.mem, crashed := o.crashed), i, o.shard);
         Some(At(s', t, if o.failed then Panicked
                        else if sh.lock.phase.Found? then Fill(v, sh.lock.phase.symbol, sh.lock.phase.text)
                        else Writing(v))))
    case Fill(v, symbol, text) =>
      var k := FillSlot(s.threads[t].cache, cfg.hash(v));
      var cell := Cell(s.id, cfg.hash(v) % U32_SIZE, |v|, Prefix8(v), CachedOffset(s.mended, text), symbol);
      Some(Return(s.(threads := s.threads[t := Thread(Idle, s.threads[t].cache[k := cell])]), t, v, symbol))
  }

  predicate Reads(pc: Pc) {
    pc.ResolveLen? || pc.ResolveChunk? || pc.ResolveOffset? || pc.ResolveText? || pc.Resolved?
  }

  /** A step of `resolve`: length, chunk, offset, record. */
  ghost function StepRead(cfg: Config, s: State, t: nat): (r: Option<State>)
    requires Shape(cfg, s) && t < |s.threads| && Reads(s.threads[t].pc)
    ensures r.Some? ==> Shape(cfg, r.value)
  {
    match s.threads[t].pc
    case ResolveLen(i, k) =>
      if i < cfg.count && k < s.shards[i].len
      then Some(At(s, t, ResolveChunk(i, k))) else Some(At(s, t, Resolved(i, k, None)))
    case ResolveChunk(i, k) =>
      if i < cfg.count && ChunkOf(k) in s.shards[i].chunks
      then Some(At(s, t, ResolveOffset(i, k))) else Some(At(s, t, Resolved(i, k, None)))
    case ResolveOffset(i, k) =>
      if i < cfg.count && SlotValue(s.shards[i].chunks, k) != 0
      then Some(At(s, t, ResolveText(i, k, SlotValue(s.shards[i].chunks, k))))
      else Some(At(s, t, Resolved(i, k, None)))
    case ResolveText(i, k, offset) =>
      if offset + 4 <= |s.mem|
      then Some(At(s, t, Resolved(i, k, Some(View(offset + 4, Word32(s.mem[offset..offset + 4]))))))
      else None
    case Resolved(_, _, _) => Some(At(s, t, Idle))
  }

  predicate Snapshotting(pc: Pc) {
    pc.SnapCursors? || pc.SnapCopy? || pc.Snapped?
  }

  /** A step of `bytes`: first every cursor, then every used part. */
  ghost function StepSnapshot(cfg: Config, s: State, t: nat): (r: Option<State>)
    requires Shape(cfg, s) && t < |s.threads| && Snapshotting(s.threads[t].pc)
    ensures r.Some? ==> Shape(cfg, r.value)
  {
    match s.threads[t].pc
    case SnapCursors(used, taken, known) =>
      if |used| < cfg.count then
        var sh := s.shards[|used|];
        var u := if sh.cursor <= cfg.region then sh.cursor else cfg.region;
        Some(At(s, t, SnapCursors(used + [u], taken + [sh.strings], known)))
      else Some(At(s, t, SnapCopy(used, taken, known, 0, s.mem[..4])))
    case SnapCopy(used, taken, known, next, out) =>
      if next < |used| then
        var b := Base(cfg, next);
        if b + used[next] <= |s.mem|
        then Some(At(s, t, SnapCopy(used, taken, known, next + 1, out + s.mem[b..b + used[next]])))
        else None
      else Some(At(s, t, Snapped(taken, known, out)))
    case Snapped(_, _, _) => Some(At(s, t, Idle))
  }

  /** One step of thread `t`'s current call; `None` when it is blocked or has none. */
  ghost function StepThread(cfg: Config, s: State, t: nat): (r: Option<State>)
    requires Shape(cfg, s) && t < |s.threads|
    ensures r.Some? ==> Shape(cfg, r.value)
  {
    var pc := s.threads[t].pc;
    if Interning(pc) then StepInterning(cfg, s, t)
    else if Reads(pc) then StepRead(cfg, s, t)
    else if Snapshotting(pc) then StepSnapshot(cfg, s, t)
    else None
  }

  /** One move of thread `t`. `Foreign` is another interner filling a slot of the shared cache. */
  ghost function Do(cfg: Config, s: State, t: nat, m: Move): (r: Option<State>)
    requires Shape(cfg, s)
    ensures r.Some? ==> Shape(cfg, r.value)
  {
    if s.crashed || t >= |s.threads| then None else
    match m
    case Step => StepThread(cfg, s, t)
    case Call(v, insert) =>
      if !(s.threads[t].pc.Idle? && ValidUtf8(v) && |v| < MAX_LEN) then None
      else if IsStatic(v) then Some(Return(s, t, v, StaticSymbol(v)))
      else Some(At(s, t, Probe(v, insert)))
    case Resolving(symbol) =>
      // static symbols are answered from a constant table, see `InternerModel.Resolve`
      if s.threads[t].pc.Idle? && ShardId(symbol) != STATIC_SHARD
      then Some(At(s, t, ResolveLen(ShardId(symbol), Index(symbol)))) else None
    case Snapshot =>
      if s.threads[t].pc.Idle? then Some(At(s, t, SnapCursors([], [], s.returned))) else None
    case Foreign(k, cell) =>
      if k < CACHE_SIZE && cell.id != 0 && cell.id != s.id
      then Some(s.(threads := s.threads[t := s.threads[t].(cache := s.threads[t].cache[k := cell])])) else None
  }

  /** What each shard of a state holds. */
  function Strings(s: State): Shards { seq(|s.shards|, i requires 0 <= i < |s.shards| => s.shards[i].strings) }

  /** The offset array's value for index `k` of a shard that holds `vs`. */
  function OffsetOrZero(cfg: Config, i: nat, vs: seq<Str>, k: nat): nat {
    if k < |vs| then Offset(cfg, i, vs, k) else 0
  }

  function LoadedChunk(cfg: Config, i: nat, vs: seq<Str>, c: nat): seq<nat> {
    seq<nat>(CHUNK_SIZE, k requires 0 <= k < CHUNK_SIZE => OffsetOrZero(cfg, i, vs, c * CHUNK_SIZE + k))
  }

  /** The offset array of a shard that holds `vs`: as many chunks as it takes. */
  function LoadedChunks(cfg: Config, i: nat, vs: seq<Str>): map<nat, seq<nat>> {
    map c: nat | 0 <= c < |vs| && c * CHUNK_SIZE < |vs| :: LoadedChunk(cfg, i, vs, c)
  }

  /** A shard at rest that holds `vs`, as `from_bytes` leaves it. */
  function LoadedShard(cfg: Config, i: nat, vs: seq<Str>): Shard {
    Shard(Size(vs), false, |vs|, LoadedChunks(cfg, i, vs), set k | 0 <= k < |vs| :: EntryOf(cfg, i, vs, k),
          Shared({}), vs)
  }

  /**
    An interner that is new, or that `from_bytes` has loaded with any strings. What
    else the arena holds is arbitrary, and so are the threads' caches, except that
    they know nothing of this interner.
   */
  ghost predicate Init(cfg: Config, s: State) {
    && Shape(cfg, s)
    && s.id > 0 && !s.crashed && s.returned == {}
    && Word32(s.mem[..4]) == cfg.count
    && WellFormed(cfg, Strings(s))
    && (forall i | 0 <= i < |s.shards| :: s.shards[i] == LoadedShard(cfg, i, s.shards[i].strings))
    && (forall i | 0 <= i < |s.shards| :: HoldsAt(s.mem, Base(cfg, i), s.shards[i].strings))
    && (forall t | 0 <= t < |s.threads| :: s.threads[t].pc.Idle?)
    && (forall t, k | 0 <= t < |s.threads| && 0 <= k < CACHE_SIZE :: s.threads[t].cache[k].id != s.id)
  }

  /** The state after a run: a list of moves, each by some thread. */
  ghost function Run(cfg: Config, s: State, moves: seq<(nat, Move)>): (r: Option<State>)
    requires Shape(cfg, s)
    ensures r.Some? ==> Shape(cfg, r.value)
    decreases |moves|
  {
    if moves == [] then Some(s) else
    match Run(cfg, s, moves[..|moves| - 1])
    case None => None
    case Some(mid) => Do(cfg, mid, moves[|moves| - 1].0, moves[|moves| - 1].1)
  }
}
