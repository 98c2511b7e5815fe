/**
  Progress of the concurrent interner: every lock is held by a thread that is where a
  holder must be, so some thread can always step; and every step brings its call
  nearer to its end, so without new calls all calls end, in every schedule.
 */
module ConcurrentProgress {
  import opened Bytes
  import opened Records
  import opened InternerModel
  import opened ConcurrentInterner
  import opened ConcurrentShard
  import opened ConcurrentSafety
  import opened ConcurrentTheorems

  // ----- locks and their holders

  /** The thread reads or writes under the lock of shard `i`. */
  predicate Inside(cfg: Config, pc: Pc, i: nat)
    requires Configured(cfg)
  {
    (pc.Reading? || pc.Writing?) && ShardOf(cfg, pc.value) == i
  }

  /** A thread that reads or writes holds the lock for it. */
  ghost predicate Holds(cfg: Config, s: State, t: nat)
    requires Shape(cfg, s) && t < |s.threads|
  {
    match s.threads[t].pc
    case Reading(v, _) => var lock := s.shards[ShardOf(cfg, v)].lock; lock.Shared? && t in lock.readers
    case Writing(v) => var lock := s.shards[ShardOf(cfg, v)].lock; lock.Exclusive? && lock.tid == t && lock.value == v
    case _ => true
  }

  /** A lock that is held is held by threads that read or write under it. */
  ghost predicate Held(cfg: Config, s: State, i: nat)
    requires Shape(cfg, s) && i < |s.shards|
  {
    match s.shards[i].lock
    case Shared(readers) =>
      forall u | u in readers :: u < |s.threads| && s.threads[u].pc.Reading? && Inside(cfg, s.threads[u].pc, i)
    case Exclusive(u, v, _) => u < |s.threads| && s.threads[u].pc == Writing(v) && Inside(cfg, s.threads[u].pc, i)
  }

  ghost predicate LocksOk(cfg: Config, s: State) {
    && Shape(cfg, s)
    && (forall t | 0 <= t < |s.threads| :: Holds(cfg, s, t))
    && (forall i | 0 <= i < |s.shards| :: Held(cfg, s, i))
  }

  /** A step of thread `t` that changes the lock of shard `i` and no other. */
  lemma LocksStep(cfg: Config, s: State, s': State, t: nat, i: nat)
    requires LocksOk(cfg, s) && Shape(cfg, s') && t < |s.threads| == |s'.threads| && i < |s.shards|
    requires forall u | 0 <= u < |s.threads| && u != t :: s'.threads[u].pc == s.threads[u].pc
    requires forall j | 0 <= j < |s.shards| && j != i :: s'.shards[j].lock == s.shards[j].lock
    requires forall j | 0 <= j < |s.shards| && j != i :: !Inside(cfg, s.threads[t].pc, j)
    requires Holds(cfg, s', t) && Held(cfg, s', i)
    requires forall u | 0 <= u < |s.threads| && u != t && Inside(cfg, s.threads[u].pc, i) :: Holds(cfg, s', u)
    ensures LocksOk(cfg, s')
  {
    hide Configured, ShardOf;
    forall u | 0 <= u < |s'.threads| ensures Holds(cfg, s', u) {
      if u != t && !Inside(cfg, s.threads[u].pc, i) { assert Holds(cfg, s, u); }
    }
    forall j | 0 <= j < |s'.shards| ensures Held(cfg, s', j) {
      if j != i { assert Held(cfg, s, j); }
    }
  }

  /** A step that neither takes nor gives back a lock. */
  lemma LocalLocks(cfg: Config, s: State, s': State, t: nat)
    requires LocksOk(cfg, s) && Shape(cfg, s') && t < |s.threads| == |s'.threads|
    requires forall u | 0 <= u < |s.threads| && u != t :: s'.threads[u].pc == s.threads[u].pc
    requires forall j | 0 <= j < |s.shards| :: s'.shards[j].lock == s.shards[j].lock
    requires s'.threads[t].pc == s.threads[t].pc
          || (!UnderLock(s.threads[t].pc) && !UnderLock(s'.threads[t].pc))
    ensures LocksOk(cfg, s')
  {
    hide Configured, ShardOf;
    forall u | 0 <= u < |s'.threads| ensures Holds(cfg, s', u) { assert Holds(cfg, s, u); }
    forall j | 0 <= j < |s'.shards| ensures Held(cfg, s', j) { assert Held(cfg, s, j); }
  }

  /** The thread is where it needs a lock. */
  predicate UnderLock(pc: Pc) { pc.Reading? || pc.Writing? }

  lemma LookupLocks(cfg: Config, s: State, t: nat)
    requires LocksOk(cfg, s) && t < |s.threads| && s.threads[t].pc.Lookup? && StepThread(cfg, s, t).Some?
    ensures LocksOk(cfg, StepThread(cfg, s, t).value)
  {
    hide Configured, StepRead, StepSnapshot, ProbeCache, FindEntry, Work, FillSlot;
    var s', i := StepThread(cfg, s, t).value, ShardOf(cfg, s.threads[t].pc.value);
    assert Held(cfg, s, i);
    forall u | 0 <= u < |s.threads| && u != t && Inside(cfg, s.threads[u].pc, i) ensures Holds(cfg, s', u) {
      assert Holds(cfg, s, u);
    }
    LocksStep(cfg, s, s', t, i);
  }

  lemma ReadingLocks(cfg: Config, s: State, t: nat)
    requires LocksOk(cfg, s) && t < |s.threads| && s.threads[t].pc.Reading? && StepThread(cfg, s, t).Some?
    ensures LocksOk(cfg, StepThread(cfg, s, t).value)
  {
    hide Configured, StepRead, StepSnapshot, ProbeCache, FindEntry, Work, FillSlot, TextOf;
    var s', i := StepThread(cfg, s, t).value, ShardOf(cfg, s.threads[t].pc.value);
    assert Held(cfg, s, i);
    forall u | 0 <= u < |s.threads| && u != t && Inside(cfg, s.threads[u].pc, i) ensures Holds(cfg, s', u) {
      assert Holds(cfg, s, u);
    }
    LocksStep(cfg, s, s', t, i);
  }

  lemma MissedLocks(cfg: Config, s: State, t: nat)
    requires LocksOk(cfg, s) && t < |s.threads| && s.threads[t].pc.Missed? && StepThread(cfg, s, t).Some?
    ensures LocksOk(cfg, StepThread(cfg, s, t).value)
  {
    hide Configured, StepRead, StepSnapshot, ProbeCache, FindEntry, Work, FillSlot;
    var s', i := StepThread(cfg, s, t).value, ShardOf(cfg, s.threads[t].pc.value);
    forall u | 0 <= u < |s.threads| && u != t && Inside(cfg, s.threads[u].pc, i) ensures Holds(cfg, s', u) {
      assert Holds(cfg, s, u);
    }
    LocksStep(cfg, s, s', t, i);
  }

  /** The lock stays with its holder until it has found its symbol or fails. */
  lemma WorkLock(cfg: Config, mem: seq<Byte>, i: nat, sh: Shard)
    requires Configured(cfg) && sh.lock.Exclusive? && |sh.lock.value| < MAX_LEN && Work(cfg, mem, i, sh).Some?
    ensures var o := Work(cfg, mem, i, sh).value;
            && (o.failed && !o.crashed ==> o.shard.lock == Shared({}))
            && (!o.failed && sh.lock.phase.Found? ==> o.shard.lock == Shared({}))
            && (!o.failed && !sh.lock.phase.Found? ==>
                  && o.shard.lock == Exclusive(sh.lock.tid, sh.lock.value, o.shard.lock.phase)
                  && PhaseRank(sh.lock.value, o.shard.lock.phase) < PhaseRank(sh.lock.value, sh.lock.phase))
  {
    hide Configured, FindEntry, Base, Padded, Zeros, TextOf;
  }

  lemma WritingLocks(cfg: Config, s: State, t: nat)
    requires LocksOk(cfg, s) && t < |s.threads| && s.threads[t].pc.Writing? && StepThread(cfg, s, t).Some?
    requires !StepThread(cfg, s, t).value.crashed
    ensures LocksOk(cfg, StepThread(cfg, s, t).value)
  {
    hide Configured, StepRead, StepSnapshot, ProbeCache, FindEntry, Work, FillSlot;
    var s', i := StepThread(cfg, s, t).value, ShardOf(cfg, s.threads[t].pc.value);
    WorkLock(cfg, s.mem, i, s.shards[i]);
    assert Held(cfg, s, i);
    forall u | 0 <= u < |s.threads| && u != t && Inside(cfg, s.threads[u].pc, i) ensures Holds(cfg, s', u) {
      assert Holds(cfg, s, u);
    }
    LocksStep(cfg, s, s', t, i);
  }

  lemma StepLocks(cfg: Config, s: State, t: nat)
    requires LocksOk(cfg, s) && t < |s.threads| && StepThread(cfg, s, t).Some?
    requires !StepThread(cfg, s, t).value.crashed
    ensures LocksOk(cfg, StepThread(cfg, s, t).value)
  {
    match s.threads[t].pc
    case Lookup(_, _) => LookupLocks(cfg, s, t);
    case Reading(_, _) => ReadingLocks(cfg, s, t);
    case Missed(_) => MissedLocks(cfg, s, t);
    case Writing(_) => WritingLocks(cfg, s, t);
    case _ => OtherLocks(cfg, s, t);
  }

  lemma OtherLocks(cfg: Config, s: State, t: nat)
    requires LocksOk(cfg, s) && t < |s.threads| && StepThread(cfg, s, t).Some?
    requires var pc := s.threads[t].pc; !pc.Lookup? && !pc.Reading? && !pc.Missed? && !pc.Writing?
    ensures LocksOk(cfg, StepThread(cfg, s, t).value)
  {
    var s' := StepThread(cfg, s, t).value;
    OtherStep(cfg, s, t);
    hide StepThread, Holds, Held;
    LocalLocks(cfg, s, s', t);
  }

  /** What a step outside the locks leaves alone. */
  ghost predicate Apart(s: State, s': State, t: nat)
    requires t < |s.threads|
  {
    && |s'.threads| == |s.threads| && s'.shards == s.shards && !UnderLock(s'.threads[t].pc)
    && forall u | 0 <= u < |s.threads| && u != t :: s'.threads[u] == s.threads[u]
  }

  lemma OtherStep(cfg: Config, s: State, t: nat)
    requires Shape(cfg, s) && t < |s.threads| && StepThread(cfg, s, t).Some?
    requires var pc := s.threads[t].pc; !pc.Lookup? && !pc.Reading? && !pc.Missed? && !pc.Writing?
    ensures Apart(s, StepThread(cfg, s, t).value, t)
  {
    hide StepInterning, StepRead, StepSnapshot, Apart;
    var pc := s.threads[t].pc;
    if Interning(pc) {
      InterningApart(cfg, s, t);
    } else if Reads(pc) {
      ReadApart(cfg, s, t);
    } else {
      SnapshotApart(cfg, s, t);
    }
  }

  lemma InterningApart(cfg: Config, s: State, t: nat)
    requires Shape(cfg, s) && t < |s.threads|
    requires var pc := s.threads[t].pc; pc.Probe? || pc.NotFound? || pc.Fill?
    ensures StepInterning(cfg, s, t).Some? && Apart(s, StepInterning(cfg, s, t).value, t)
    ensures Rank(cfg, StepInterning(cfg, s, t).value, t) < Rank(cfg, s, t)
  {
    hide Configured, ProbeCache, FindEntry, Work, FillSlot, SlotValue, CachedOffset;
  }

  lemma ReadApart(cfg: Config, s: State, t: nat)
    requires Shape(cfg, s) && t < |s.threads| && Reads(s.threads[t].pc) && StepRead(cfg, s, t).Some?
    ensures Apart(s, StepRead(cfg, s, t).value, t)
    ensures Rank(cfg, StepRead(cfg, s, t).value, t) < Rank(cfg, s, t)
  {
    hide Configured, SlotValue, Word32;
  }

  lemma SnapshotApart(cfg: Config, s: State, t: nat)
    requires Shape(cfg, s) && t < |s.threads| && Snapshotting(s.threads[t].pc) && StepSnapshot(cfg, s, t).Some?
    ensures Apart(s, StepSnapshot(cfg, s, t).value, t)
  {
    hide Configured, Base;
  }

  lemma DoLocks(cfg: Config, s: State, t: nat, m: Move)
    requires LocksOk(cfg, s) && Do(cfg, s, t, m).Some? && !Do(cfg, s, t, m).value.crashed
    ensures LocksOk(cfg, Do(cfg, s, t, m).value)
  {
    hide StepThread, Holds, Held;
    var s' := Do(cfg, s, t, m).value;
    if m.Step? { StepLocks(cfg, s, t); } else { LocalLocks(cfg, s, s', t); }
  }

  /** In every state of every run, as long as it has not crashed, the locks are in order. */
  lemma {:induction false} RunLocks(cfg: Config, s: State, moves: seq<(nat, Move)>)
    requires LocksOk(cfg, s) && !s.crashed && Run(cfg, s, moves).Some? && !Run(cfg, s, moves).value.crashed
    ensures LocksOk(cfg, Run(cfg, s, moves).value)
    decreases |moves|
  {
    hide Holds, Held, Do;
    if moves != [] {
      var n := |moves| - 1;
      NotCrashed(cfg, Run(cfg, s, moves[..n]).value, moves[n].0, moves[n].1);
      RunLocks(cfg, s, moves[..n]);
      DoLocks(cfg, Run(cfg, s, moves[..n]).value, moves[n].0, moves[n].1);
    }
  }

  lemma NotCrashed(cfg: Config, s: State, t: nat, m: Move)
    requires Shape(cfg, s) && Do(cfg, s, t, m).Some?
    ensures !s.crashed
  {
  }

  lemma InitLocks(cfg: Config, s: State)
    requires Init(cfg, s)
    ensures LocksOk(cfg, s)
  {
    hide LoadedChunks, Size, WellFormed, HoldsAt;
    forall i | 0 <= i < |s.shards| ensures Held(cfg, s, i) {
      assert s.shards[i] == LoadedShard(cfg, i, s.shards[i].strings);
    }
  }

  // ----- some thread can step

  predicate AtRest(pc: Pc) { pc.Idle? || pc.Panicked? }

  ghost predicate CanStep(cfg: Config, s: State, t: nat)
    requires Shape(cfg, s)
  {
    t < |s.threads| && StepThread(cfg, s, t).Some?
  }

  /** A thread inside the locked part of a shard is not blocked. */
  lemma InsideSteps(cfg: Config, s: State, t: nat, i: nat)
    requires Inv(cfg, s) && LocksOk(cfg, s) && t < |s.threads| && Inside(cfg, s.threads[t].pc, i)
    ensures CanStep(cfg, s, t)
  {
    hide Configured, StepRead, StepSnapshot, ProbeCache, FindEntry, Work, FillSlot, ShardOk, CacheOk, TextOf;
    assert Holds(cfg, s, t) && ThreadOk(cfg, s.mended, s.id, s.shards, s.threads[t]);
    if s.threads[t].pc.Writing? {
      assert ShardOk(cfg, s.mem, i, s.shards[i]);
      WorkKeeps(cfg, s.mem, i, s.shards[i]);
    }
  }

  /** A thread in a call steps, or waits for a lock of which a holder steps. */
  lemma Unblocked(cfg: Config, s: State, t: nat) returns (u: nat)
    requires Inv(cfg, s) && LocksOk(cfg, s) && t < |s.threads| && !AtRest(s.threads[t].pc)
    ensures CanStep(cfg, s, u)
    ensures u != t ==> (s.threads[t].pc.Lookup? || s.threads[t].pc.Missed?)
                       && Inside(cfg, s.threads[u].pc, ShardOf(cfg, s.threads[t].pc.value))
  {
    hide StepThread, ShardsOk, ThreadOk, ReturnedOk, ShardOf;
    u := t;
    var pc := s.threads[t].pc;
    if pc.Reading? || pc.Writing? {
      InsideSteps(cfg, s, t, ShardOf(cfg, pc.value));
    } else if pc.Lookup? || pc.Missed? {
      var i := ShardOf(cfg, pc.value);
      assert Held(cfg, s, i);
      match s.shards[i].lock
      case Exclusive(w, _, _) =>
        u := w;
        InsideSteps(cfg, s, u, i);
      case Shared(readers) =>
        if pc.Missed? && readers != {} {
          u :| u in readers;
          InsideSteps(cfg, s, u, i);
        } else {
          FreeSteps(cfg, s, t);
        }
    } else {
      LocalSteps(cfg, s, t);
    }
  }

  lemma FreeSteps(cfg: Config, s: State, t: nat)
    requires Inv(cfg, s) && t < |s.threads| && (s.threads[t].pc.Lookup? || s.threads[t].pc.Missed?)
    requires var lock := s.shards[ShardOf(cfg, s.threads[t].pc.value)].lock;
             lock.Shared? && (s.threads[t].pc.Missed? ==> lock.readers == {})
    ensures CanStep(cfg, s, t)
  {
    hide Configured, StepRead, StepSnapshot, ProbeCache, FindEntry, Work, FillSlot, ShardOk, CacheOk;
    assert ThreadOk(cfg, s.mended, s.id, s.shards, s.threads[t]);
  }

  lemma LocalSteps(cfg: Config, s: State, t: nat)
    requires Inv(cfg, s) && t < |s.threads| && !AtRest(s.threads[t].pc)
    requires var pc := s.threads[t].pc; !pc.Lookup? && !pc.Reading? && !pc.Missed? && !pc.Writing?
    ensures CanStep(cfg, s, t)
  {
    hide ShardsOk, ThreadOk, ReturnedOk;
    if s.threads[t].pc.SnapCopy? {
      StepSnapCopy(cfg, s, t);
    } else if s.threads[t].pc.ResolveText? {
      TextSteps(cfg, s, t);
    }
  }

  lemma TextSteps(cfg: Config, s: State, t: nat)
    requires Inv(cfg, s) && t < |s.threads| && s.threads[t].pc.ResolveText?
    ensures CanStep(cfg, s, t)
  {
    StepResolveText(cfg, s, t);
  }

  // ----- every step brings a call nearer to its end

  function PhaseRank(v: Str, phase: Phase): nat {
    match phase
    case Recheck => 13 + |v|
    case Copy(done) => if done <= 4 + |v| then 12 + |v| - done else 8
    case Push(_) => 7 case Chunk(_, _) => 6 case Install(_, _) => 5 case Slot(_, _) => 4 case Enter(_, _) => 3
    case Found(_, _) => 2
  }

  /** A bound on the steps that a thread has before it. */
  ghost function Rank(cfg: Config, s: State, t: nat): nat
    requires Shape(cfg, s) && t < |s.threads|
  {
    match s.threads[t].pc
    case Probe(v, _) => 17 + |v|
    case Lookup(v, _) => 16 + |v|
    case Reading(v, _) => 15 + |v|
    case Missed(v) => 14 + |v|
    case Writing(v) =>
      var lock := s.shards[ShardOf(cfg, v)].lock; if lock.Exclusive? then PhaseRank(v, lock.phase) else 0
    case ResolveLen(_, _) => 5 case ResolveChunk(_, _) => 4 case ResolveOffset(_, _) => 3
    case ResolveText(_, _, _) => 2
    case SnapCursors(used, _, _) => if |used| <= cfg.count then 3 + 2 * cfg.count - |used| else 0
    case SnapCopy(used, _, _, next, _) => if next <= |used| then 2 + |used| - next else 0
    case Idle => 0 case Panicked => 0
    case _ => 1
  }

  /** The ranks of the first `n` threads. */
  ghost function Total(cfg: Config, s: State, n: nat): nat
    requires Shape(cfg, s) && n <= |s.threads|
  {
    if n == 0 then 0 else Total(cfg, s, n - 1) + Rank(cfg, s, n - 1)
  }

  lemma SnapshotRank(cfg: Config, s: State, t: nat)
    requires Inv(cfg, s) && t < |s.threads| && Snapshotting(s.threads[t].pc) && StepSnapshot(cfg, s, t).Some?
    ensures Rank(cfg, StepSnapshot(cfg, s, t).value, t) < Rank(cfg, s, t)
  {
    hide Configured, Base, ShardOk, CacheOk, HoldsAt, IsSnapshot, Flatten, KnownOk, ReturnedOk;
    assert ThreadOk(cfg, s.mended, s.id, s.shards, s.threads[t]);
  }

  lemma WaitRank(cfg: Config, s: State, t: nat)
    requires Shape(cfg, s) && t < |s.threads| && Interning(s.threads[t].pc)
    requires var pc := s.threads[t].pc; pc.Lookup? || pc.Reading? || pc.Missed?
    requires StepInterning(cfg, s, t).Some?
    ensures var s' := StepInterning(cfg, s, t).value;
            |s'.threads| == |s.threads| && Rank(cfg, s', t) < Rank(cfg, s, t)
  {
    hide Configured, ProbeCache, FindEntry, Work, FillSlot, TextOf;
  }

  lemma WritingRank(cfg: Config, s: State, t: nat)
    requires Shape(cfg, s) && t < |s.threads| && s.threads[t].pc.Writing? && StepInterning(cfg, s, t).Some?
    ensures var s' := StepInterning(cfg, s, t).value;
            |s'.threads| == |s.threads| && Rank(cfg, s', t) < Rank(cfg, s, t)
  {
    hide Configured, ProbeCache, FindEntry, Work, FillSlot, TextOf;
    var i := ShardOf(cfg, s.threads[t].pc.value);
    WorkLock(cfg, s.mem, i, s.shards[i]);
  }

  /** A step lowers the rank of its own thread. */
  lemma OwnRank(cfg: Config, s: State, t: nat)
    requires Inv(cfg, s) && CanStep(cfg, s, t)
    ensures var s' := StepThread(cfg, s, t).value; |s'.threads| == |s.threads| && Rank(cfg, s', t) < Rank(cfg, s, t)
  {
    hide StepInterning, StepRead, StepSnapshot, Rank, ShardsOk, ThreadOk, ReturnedOk;
    var pc := s.threads[t].pc;
    if Reads(pc) {
      ReadApart(cfg, s, t);
    } else if Snapshotting(pc) {
      SnapshotApart(cfg, s, t);
      SnapshotRank(cfg, s, t);
    } else if pc.Writing? {
      WritingRank(cfg, s, t);
    } else if pc.Lookup? || pc.Reading? || pc.Missed? {
      WaitRank(cfg, s, t);
    } else {
      InterningApart(cfg, s, t);
    }
  }

  /** A step outside the locks leaves the ranks of the others. */
  lemma ApartRank(cfg: Config, s: State, s': State, t: nat, u: nat)
    requires Shape(cfg, s) && Shape(cfg, s') && t < |s.threads| && Apart(s, s', t) && u < |s.threads| && u != t
    ensures Rank(cfg, s', u) == Rank(cfg, s, u)
  {
  }

  /** A step under a lock, or to one, touches that shard alone, and not while another thread writes there. */
  lemma LockedStep(cfg: Config, s: State, t: nat, i: nat)
    requires Shape(cfg, s) && t < |s.threads|
    requires var pc := s.threads[t].pc; pc.Lookup? || pc.Reading? || pc.Missed? || pc.Writing?
    requires StepInterning(cfg, s, t).Some? && i == ShardOf(cfg, s.threads[t].pc.value)
    ensures var s' := StepInterning(cfg, s, t).value;
            && |s'.threads| == |s.threads| && s'.shards == s.shards[i := s'.shards[i]]
            && (forall u | 0 <= u < |s.threads| && u != t :: s'.threads[u] == s.threads[u])
            && (s.shards[i].lock.Exclusive? ==> s.shards[i].lock.tid == t)
  {
    hide Configured, ProbeCache, FindEntry, Work, FillSlot, TextOf;
  }

  /** So does one under a lock, for it changes no lock that another thread writes under. */
  lemma LockedRank(cfg: Config, s: State, t: nat, u: nat)
    requires LocksOk(cfg, s) && t < |s.threads| && u < |s.threads| && u != t
    requires var pc := s.threads[t].pc; pc.Lookup? || pc.Reading? || pc.Missed? || pc.Writing?
    requires StepInterning(cfg, s, t).Some?
    ensures var s' := StepInterning(cfg, s, t).value;
            |s'.threads| == |s.threads| && Rank(cfg, s', u) == Rank(cfg, s, u)
  {
    hide Configured, StepInterning, PhaseRank, Held;
    LockedStep(cfg, s, t, ShardOf(cfg, s.threads[t].pc.value));
    assert Holds(cfg, s, u);
  }

  lemma OtherRank(cfg: Config, s: State, t: nat, u: nat)
    requires LocksOk(cfg, s) && CanStep(cfg, s, t) && u < |s.threads| && u != t
    ensures var s' := StepThread(cfg, s, t).value; |s'.threads| == |s.threads| && Rank(cfg, s', u) == Rank(cfg, s, u)
  {
    hide StepInterning, StepRead, StepSnapshot, Rank, Holds, Held;
    var pc := s.threads[t].pc;
    if pc.Lookup? || pc.Reading? || pc.Missed? || pc.Writing? {
      LockedRank(cfg, s, t, u);
    } else {
      OtherStep(cfg, s, t);
      ApartRank(cfg, s, StepThread(cfg, s, t).value, t, u);
    }
  }

  lemma {:induction false} TotalFalls(cfg: Config, s: State, t: nat, n: nat)
    requires Inv(cfg, s) && LocksOk(cfg, s) && CanStep(cfg, s, t) && n <= |s.threads|
    ensures var s' := StepThread(cfg, s, t).value;
            |s'.threads| == |s.threads| && Total(cfg, s', n) + (if t < n then 1 else 0) <= Total(cfg, s, n)
    decreases n
  {
    hide StepThread, Rank, Inv, Holds, Held;
    OwnRank(cfg, s, t);
    if n > 0 {
      TotalFalls(cfg, s, t, n - 1);
      if n - 1 != t { OtherRank(cfg, s, t, n - 1); }
    }
  }

  ghost predicate OnlySteps(moves: seq<(nat, Move)>) { forall k | 0 <= k < |moves| :: moves[k].1.Step? }

  /** Without new calls a run is no longer than the calls in it have steps left. */
  lemma {:induction false} StepsBounded(cfg: Config, s: State, moves: seq<(nat, Move)>)
    requires Inv(cfg, s) && LocksOk(cfg, s) && !s.crashed && OnlySteps(moves) && Run(cfg, s, moves).Some?
    ensures var s' := Run(cfg, s, moves).value;
            |s'.threads| == |s.threads| && |moves| + Total(cfg, s', |s.threads|) <= Total(cfg, s, |s.threads|)
    decreases |moves|
  {
    hide StepThread, Total, Inv, Holds, Held;
    InvShape(cfg, s);
    if moves != [] {
      var n := |moves| - 1;
      var mid := Run(cfg, s, moves[..n]).value;
      StepsBounded(cfg, s, moves[..n]);
      NotCrashed(cfg, mid, moves[n].0, moves[n].1);
      RunKeeps(cfg, s, moves[..n]);
      RunLocks(cfg, s, moves[..n]);
      assert moves[n].1.Step?;
      TotalFalls(cfg, mid, moves[n].0, |mid.threads|);
    }
  }

  lemma InvShape(cfg: Config, s: State)
    requires Inv(cfg, s)
    ensures Shape(cfg, s)
  {
  }

  /**
    From every reachable state, every schedule of the calls under way ends after a
    bounded number of steps, and it can only end in a crash or with every call
    returned or panicked: no thread waits for ever.
   */
  lemma AllCallsEnd(cfg: Config, s0: State, moves: seq<(nat, Move)>, steps: seq<(nat, Move)>)
    requires Init(cfg, s0) && Run(cfg, s0, moves).Some? && !Run(cfg, s0, moves).value.crashed && OnlySteps(steps)
    ensures var s := Run(cfg, s0, moves).value;
            Run(cfg, s, steps).Some? ==>
              var s' := Run(cfg, s, steps).value;
              && |steps| <= Total(cfg, s, |s.threads|)
              && (s'.crashed
                  || (forall t | 0 <= t < |s'.threads| :: AtRest(s'.threads[t].pc))
                  || exists u :: CanStep(cfg, s', u))
  {
    hide StepThread, Total, Inv, Init, Holds, Held;
    InitInv(cfg, s0);
    assert Shape(cfg, s0) && !s0.crashed by { InitShape(cfg, s0); }
    InitLocks(cfg, s0);
    RunKeeps(cfg, s0, moves);
    RunLocks(cfg, s0, moves);
    var s := Run(cfg, s0, moves).value;
    if Run(cfg, s, steps).Some? {
      var s' := Run(cfg, s, steps).value;
      StepsBounded(cfg, s, steps);
      RunKeeps(cfg, s, steps);
      if !s'.crashed {
        RunLocks(cfg, s, steps);
        if t :| 0 <= t < |s'.threads| && !AtRest(s'.threads[t].pc) { var u := Unblocked(cfg, s', t); }
      }
    }
  }

  lemma InitShape(cfg: Config, s: State)
    requires Init(cfg, s)
    ensures Shape(cfg, s) && !s.crashed
  {
  }
}
