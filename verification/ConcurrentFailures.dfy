/**
  When a call of the concurrent interner may fail: a shard is poisoned only if a text
  that was called for does not fit into its region, a thread panics only at a poisoned
  shard, and a run crashes only if a shard has more strings than symbols can name. Texts
  that fit are all interned, and their calls all return.
 */
module ConcurrentFailures {
  import opened Bytes
  import opened Records
  import opened Symbols
  import opened InternerModel
  import opened ConcurrentInterner
  import opened ConcurrentShard
  import opened ConcurrentSafety
  import opened ConcurrentTheorems
  import opened ConcurrentProgress

  // ----- who called for what

  /** Some thread called `get_or_intern` for the text. */
  ghost predicate Asked(moves: seq<(nat, Move)>, v: Str) {
    exists k :: 0 <= k < |moves| && moves[k].1 == Call(v, true)
  }

  predicate Begins(m: Move) { m.Call? || m.Resolving? || m.Snapshot? }

  /** The call that thread `t` began last. */
  function Last(moves: seq<(nat, Move)>, t: nat): (r: Option<Move>)
    ensures r.Some? ==> exists k :: 0 <= k < |moves| && moves[k] == (t, r.value)
  {
    if moves == [] then None else
    var (u, m) := moves[|moves| - 1];
    if u == t && Begins(m) then Some(m) else Last(moves[..|moves| - 1], t)
  }

  lemma LastAsked(moves: seq<(nat, Move)>, t: nat, v: Str)
    requires Last(moves, t) == Some(Call(v, true))
    ensures Asked(moves, v)
  {
  }

  // ----- the critical section

  /** The text is not in its shard, and there is no room for it. */
  ghost predicate Misfit(cfg: Config, i: nat, vs: seq<Str>, v: Str) {
    && Configured(cfg) && !IsStatic(v) && ShardOf(cfg, v) == i
    && v !in vs && Size(vs) + Padded(|v|) > cfg.region
  }

  predicate Copying(sh: Shard) { sh.lock.Exclusive? && sh.lock.phase.Copy? }

  /**
    The step fails exactly if the text is not in the shard and the shard is poisoned or
    has no room for it, and crashes exactly if the index is one that symbols cannot carry.
   */
  lemma WorkFails(cfg: Config, mem: seq<Byte>, i: nat, sh: Shard)
    requires ShardOk(cfg, mem, i, sh) && sh.lock.Exclusive? && Work(cfg, mem, i, sh).Some?
    ensures var o, v := Work(cfg, mem, i, sh).value, sh.lock.value;
            && (o.crashed ==> o.failed)
            && (o.failed && !o.crashed <==> sh.lock.phase.Recheck? && v !in sh.strings
                                            && (sh.poisoned || Misfit(cfg, i, sh.strings, v)))
            && (o.crashed <==> sh.lock.phase.Enter? && |sh.strings| > INDEX_LIMIT)
  {
    hide RegionOk, SlotsOk, EntryMatches, TextOf, Prefix8;
    if sh.lock.phase.Recheck? {
      LookupMeaning(cfg, mem, i, sh, sh.lock.value);
      assert sh.cursor == Size(sh.strings) by { CursorSize(cfg, mem, i, sh); }
    }
  }

  lemma CursorSize(cfg: Config, mem: seq<Byte>, i: nat, sh: Shard)
    requires ShardOk(cfg, mem, i, sh)
    ensures sh.cursor == Size(sh.strings) <= cfg.region && ShardStrings(cfg, i, sh.strings)
  {
  }

  /** What a step does to the strings and the poison of its shard. */
  lemma WorkChanges(cfg: Config, mem: seq<Byte>, i: nat, sh: Shard)
    requires ShardOk(cfg, mem, i, sh) && sh.lock.Exclusive? && Work(cfg, mem, i, sh).Some?
    ensures var o := Work(cfg, mem, i, sh).value;
            && o.shard.poisoned == (sh.poisoned || (o.failed && !o.crashed))
            && (o.shard.strings == sh.strings || (Copying(sh) && o.shard.strings == sh.strings + [sh.lock.value]))
            && (Copying(o.shard) ==> Copying(sh) || !sh.poisoned)
  {
    hide RegionOk, SlotsOk, EntriesOk, PhaseOk, FindEntry, TextOf, Prefix8, Image, Zeros, Base, Padded;
  }

  // ----- what holds in every state of a run

  /**
    A shard's strings were there before or were called for; it is poisoned only by a text
    that was called for and does not fit, and then nothing more is stored.
   */
  ghost predicate ShardFair(cfg: Config, i: nat, before: seq<Str>, moves: seq<(nat, Move)>, sh: Shard) {
    && (forall v | v in sh.strings :: v in before || Asked(moves, v))
    && (sh.poisoned ==> !Copying(sh) && exists v :: Asked(moves, v) && Misfit(cfg, i, sh.strings, v))
  }

  /** Thread `t` is in the call that it began last; if it panicked, the shard of that text is poisoned. */
  ghost predicate ThreadFair(cfg: Config, s: State, moves: seq<(nat, Move)>, t: nat)
    requires Shape(cfg, s) && t < |s.threads|
  {
    var last := Last(moves, t);
    match s.threads[t].pc
    case Idle => last.Some? && last.value.Call? && last.value.insert ==> Answered(s, last.value.value)
    case Probe(v, insert) => last == Some(Call(v, insert))
    case Lookup(v, insert) => last == Some(Call(v, insert))
    case Reading(v, insert) => last == Some(Call(v, insert))
    case NotFound(v) => last == Some(Call(v, false))
    case Missed(v) => last == Some(Call(v, true))
    case Writing(v) => last == Some(Call(v, true))
    case Fill(v, _, _) => last == Some(Call(v, true)) || last == Some(Call(v, false))
    case Panicked =>
      last.Some? && last.value.Call? && last.value.insert && (s.crashed || Barred(cfg, s, last.value.value))
    case _ => last.Some? && !last.value.Call?
  }

  ghost predicate Answered(s: State, v: Str) { exists a :: (v, a) in s.returned }

  /** The text's shard is poisoned and does not hold it. */
  ghost predicate Barred(cfg: Config, s: State, v: Str)
    requires Shape(cfg, s)
  {
    var sh := s.shards[ShardOf(cfg, v)]; !IsStatic(v) && sh.poisoned && v !in sh.strings
  }

  ghost predicate TooMany(s: State) { exists i :: 0 <= i < |s.shards| && |s.shards[i].strings| > INDEX_LIMIT }

  ghost predicate Fair(cfg: Config, s0: State, moves: seq<(nat, Move)>, s: State) {
    && Shape(cfg, s0) && Shape(cfg, s)
    && (forall i | 0 <= i < |s.shards| :: ShardFair(cfg, i, s0.shards[i].strings, moves, s.shards[i]))
    && (forall t | 0 <= t < |s.threads| :: ThreadFair(cfg, s, moves, t))
    && (s.crashed ==> TooMany(s))
  }

  // ----- why every move keeps it

  lemma LastStep(moves: seq<(nat, Move)>, u: nat, m: Move, t: nat)
    ensures Last(moves + [(u, m)], t) == if u == t && Begins(m) then Some(m) else Last(moves, t)
  {
    assert (moves + [(u, m)])[..|moves|] == moves;
  }

  lemma AskedStep(moves: seq<(nat, Move)>, u: nat, m: Move, v: Str)
    requires Asked(moves, v)
    ensures Asked(moves + [(u, m)], v)
  {
    var k :| 0 <= k < |moves| && moves[k].1 == Call(v, true);
    assert (moves + [(u, m)])[k] == moves[k];
  }

  /** Shards whose strings and poison are as they were, and that nobody began to copy into. */
  ghost predicate Same(sh: Shard, sh': Shard) {
    sh'.strings == sh.strings && sh'.poisoned == sh.poisoned && (Copying(sh') ==> Copying(sh))
  }

  lemma SameFair(cfg: Config, i: nat, before: seq<Str>, moves: seq<(nat, Move)>, u: nat, m: Move, sh: Shard, sh': Shard)
    requires ShardFair(cfg, i, before, moves, sh) && Same(sh, sh')
    ensures ShardFair(cfg, i, before, moves + [(u, m)], sh')
  {
    hide Asked, Misfit;
    forall v | Asked(moves, v) ensures Asked(moves + [(u, m)], v) { AskedStep(moves, u, m, v); }
  }

  /** Nothing that was returned, poisoned or stored is taken back, and poisoned shards do not grow. */
  ghost predicate Onward(s: State, s': State) {
    && |s'.shards| == |s.shards| && |s'.threads| == |s.threads| && s.returned <= s'.returned
    && (s.crashed ==> s'.crashed)
    && forall i | 0 <= i < |s.shards| ::
         s.shards[i].poisoned ==> s'.shards[i].poisoned && s'.shards[i].strings == s.shards[i].strings
  }

  /** A thread that did not move is where it was. */
  lemma OtherFair(cfg: Config, s: State, s': State, moves: seq<(nat, Move)>, u: nat, m: Move, t: nat)
    requires Shape(cfg, s) && Shape(cfg, s') && Onward(s, s') && t < |s.threads| && ThreadFair(cfg, s, moves, t)
    requires s'.threads[t].pc == s.threads[t].pc && (u != t || !Begins(m))
    ensures ThreadFair(cfg, s', moves + [(u, m)], t)
  {
    hide Configured, ShardOf;
    LastStep(moves, u, m, t);
  }

  /** A move that leaves all strings, poison and copying alone, seen by its own thread. */
  ghost predicate LocalMove(s: State, s': State, t: nat) {
    && t < |s.threads| == |s'.threads| && |s'.shards| == |s.shards|
    && (forall i | 0 <= i < |s.shards| :: Same(s.shards[i], s'.shards[i]))
    && (forall u | 0 <= u < |s.threads| && u != t :: s'.threads[u].pc == s.threads[u].pc)
    && s.returned <= s'.returned && s'.crashed == s.crashed
  }

  lemma LocalFair(cfg: Config, s0: State, moves: seq<(nat, Move)>, s: State, s': State, t: nat, m: Move)
    requires Fair(cfg, s0, moves, s) && Shape(cfg, s') && LocalMove(s, s', t) && !s.crashed
    requires ThreadFair(cfg, s', moves + [(t, m)], t)
    ensures Fair(cfg, s0, moves + [(t, m)], s')
  {
    hide ShardFair, ThreadFair, Configured;
    forall i | 0 <= i < |s'.shards|
      ensures ShardFair(cfg, i, s0.shards[i].strings, moves + [(t, m)], s'.shards[i])
    {
      SameFair(cfg, i, s0.shards[i].strings, moves, t, m, s.shards[i], s'.shards[i]);
    }
    forall u | 0 <= u < |s'.threads| ensures ThreadFair(cfg, s', moves + [(t, m)], u) {
      if u != t { OtherFair(cfg, s, s', moves, t, m, u); }
    }
  }

  /** Steps outside the critical section. */
  lemma InterningFair(cfg: Config, s0: State, moves: seq<(nat, Move)>, s: State, t: nat)
    requires Fair(cfg, s0, moves, s) && !s.crashed && t < |s.threads| && Interning(s.threads[t].pc)
    requires !s.threads[t].pc.Writing? && StepInterning(cfg, s, t).Some?
    ensures Fair(cfg, s0, moves + [(t, Step)], StepInterning(cfg, s, t).value)
  {
    hide ShardFair, Configured, ShardOf, ProbeCache, FindEntry, Work, FillSlot, TextOf, TooMany, Storable;
    var s' := StepInterning(cfg, s, t).value;
    LastStep(moves, t, Step, t);
    assert ThreadFair(cfg, s, moves, t);
    assert LocalMove(s, s', t);
    assert ThreadFair(cfg, s', moves + [(t, Step)], t) by { InterningThread(cfg, s, moves, t); }
    hide ThreadFair;
    LocalFair(cfg, s0, moves, s, s', t, Step);
  }

  lemma InterningThread(cfg: Config, s: State, moves: seq<(nat, Move)>, t: nat)
    requires Shape(cfg, s) && t < |s.threads| && Interning(s.threads[t].pc) && ThreadFair(cfg, s, moves, t)
    requires !s.threads[t].pc.Writing? && StepInterning(cfg, s, t).Some?
    ensures var s' := StepInterning(cfg, s, t).value;
            |s'.threads| == |s.threads| && ThreadFair(cfg, s', moves + [(t, Step)], t)
  {
    hide Configured, ShardOf, ProbeCache, FindEntry, Work, FillSlot, TextOf, Storable, Last;
    LastStep(moves, t, Step, t);
    var pc, s' := s.threads[t].pc, StepInterning(cfg, s, t).value;
    if pc.Fill? { assert (pc.value, pc.symbol) in s'.returned; }
    if pc.Probe? && s'.threads[t].pc.Idle? {
      var a := ProbeCache(s.mem, s.threads[t].cache, s.id, cfg.hash(pc.value), pc.value).value;
      assert (pc.value, a) in s'.returned;
    }
  }

  lemma ReadFair(cfg: Config, s0: State, moves: seq<(nat, Move)>, s: State, t: nat)
    requires Fair(cfg, s0, moves, s) && !s.crashed && t < |s.threads| && !Interning(s.threads[t].pc)
    requires StepThread(cfg, s, t).Some?
    ensures Fair(cfg, s0, moves + [(t, Step)], StepThread(cfg, s, t).value)
  {
    hide ShardFair, ThreadFair, Configured, StepThread, TooMany;
    var s' := StepThread(cfg, s, t).value;
    assert ThreadFair(cfg, s, moves, t);
    ReadThread(cfg, s, moves, t);
    LocalFair(cfg, s0, moves, s, s', t, Step);
  }

  /** Reads and snapshots store nothing and never panic. */
  lemma ReadThread(cfg: Config, s: State, moves: seq<(nat, Move)>, t: nat)
    requires Shape(cfg, s) && t < |s.threads| && !Interning(s.threads[t].pc) && ThreadFair(cfg, s, moves, t)
    requires StepThread(cfg, s, t).Some?
    ensures var s' := StepThread(cfg, s, t).value;
            LocalMove(s, s', t) && ThreadFair(cfg, s', moves + [(t, Step)], t)
  {
    hide Configured, StepInterning, StepRead, StepSnapshot, Last, LocalMove;
    LastStep(moves, t, Step, t);
    if Reads(s.threads[t].pc) { ReadMoves(cfg, s, t); } else { SnapshotMoves(cfg, s, t); }
  }

  predicate Looking(pc: Pc) { Reads(pc) || Snapshotting(pc) }

  lemma ReadMoves(cfg: Config, s: State, t: nat)
    requires Shape(cfg, s) && t < |s.threads| && Reads(s.threads[t].pc) && StepRead(cfg, s, t).Some?
    ensures var s' := StepRead(cfg, s, t).value;
            LocalMove(s, s', t) && (s'.threads[t].pc.Idle? || Looking(s'.threads[t].pc))
  {
    hide Configured, SlotValue, Word32;
  }

  lemma SnapshotMoves(cfg: Config, s: State, t: nat)
    requires Shape(cfg, s) && t < |s.threads| && Snapshotting(s.threads[t].pc) && StepSnapshot(cfg, s, t).Some?
    ensures var s' := StepSnapshot(cfg, s, t).value;
            LocalMove(s, s', t) && (s'.threads[t].pc.Idle? || Looking(s'.threads[t].pc))
  {
    hide Configured, Base;
  }

  /** Beginning a call, and other interners' use of the cache. */
  lemma BeginFair(cfg: Config, s0: State, moves: seq<(nat, Move)>, s: State, t: nat, m: Move)
    requires Fair(cfg, s0, moves, s) && !m.Step? && Do(cfg, s, t, m).Some?
    ensures Fair(cfg, s0, moves + [(t, m)], Do(cfg, s, t, m).value)
  {
    hide ShardFair, Configured, StepThread, TooMany, StaticSymbol;
    var s' := Do(cfg, s, t, m).value;
    LastStep(moves, t, m, t);
    assert LocalMove(s, s', t);
    assert ThreadFair(cfg, s, moves, t);
    if m.Call? && IsStatic(m.value) { assert (m.value, StaticSymbol(m.value)) in s'.returned; }
    if m.Foreign? { OtherFair(cfg, s, s', moves, t, m, t); }
    LocalFair(cfg, s0, moves, s, s', t, m);
  }

  // ----- the critical section in a run

  /** The shard under the step. */
  lemma WorkFair(cfg: Config, mem: seq<Byte>, i: nat, sh: Shard, before: seq<Str>, moves: seq<(nat, Move)>, t: nat)
    requires ShardOk(cfg, mem, i, sh) && sh.lock.Exclusive? && Work(cfg, mem, i, sh).Some?
    requires ShardFair(cfg, i, before, moves, sh) && Asked(moves, sh.lock.value)
    ensures var o := Work(cfg, mem, i, sh).value;
            && ShardFair(cfg, i, before, moves + [(t, Step)], o.shard)
            && (sh.poisoned ==> o.shard.poisoned && o.shard.strings == sh.strings)
            && (o.failed && !o.crashed ==> o.shard.poisoned && sh.lock.value !in o.shard.strings)
            && (o.crashed ==> |o.shard.strings| > INDEX_LIMIT)
  {
    var o := Work(cfg, mem, i, sh).value;
    hide ShardOk, Work, Asked, Misfit;
    WorkFails(cfg, mem, i, sh);
    WorkChanges(cfg, mem, i, sh);
    forall v | Asked(moves, v) ensures Asked(moves + [(t, Step)], v) { AskedStep(moves, t, Step, v); }
    if o.failed && !o.crashed { FailedIdle(cfg, mem, i, sh); }
    if o.crashed { CrashStays(cfg, mem, i, sh); }
  }

  lemma FailedIdle(cfg: Config, mem: seq<Byte>, i: nat, sh: Shard)
    requires ShardOk(cfg, mem, i, sh) && sh.lock.Exclusive? && Work(cfg, mem, i, sh).Some?
    requires Work(cfg, mem, i, sh).value.failed && !Work(cfg, mem, i, sh).value.crashed
    ensures !Copying(Work(cfg, mem, i, sh).value.shard)
  {
    hide ShardOk, FindEntry, TextOf, Prefix8, Image, Zeros, Base, Padded;
  }

  lemma CrashStays(cfg: Config, mem: seq<Byte>, i: nat, sh: Shard)
    requires ShardOk(cfg, mem, i, sh) && sh.lock.Exclusive? && Work(cfg, mem, i, sh).Some?
    requires Work(cfg, mem, i, sh).value.crashed
    ensures Work(cfg, mem, i, sh).value.shard == sh
  {
    hide ShardOk, FindEntry, TextOf, Prefix8, Image, Zeros, Base, Padded;
  }

  /** What a step in the critical section does to the state. */
  lemma WritingIs(cfg: Config, s: State, t: nat)
    requires Inv(cfg, s) && t < |s.threads| && s.threads[t].pc.Writing? && StepInterning(cfg, s, t).Some?
    ensures var v := s.threads[t].pc.value; var i := ShardOf(cfg, v); var sh := s.shards[i];
            var s' := StepInterning(cfg, s, t).value;
            && ShardOk(cfg, s.mem, i, sh) && sh.lock.Exclusive? && sh.lock.value == v
            && !IsStatic(v) && Work(cfg, s.mem, i, sh).Some?
            && var o := Work(cfg, s.mem, i, sh).value;
               && s'.shards == s.shards[i := o.shard] && s'.crashed == o.crashed && s'.returned == s.returned
               && s'.threads == s.threads[t := s.threads[t].(pc := s'.threads[t].pc)]
               && s'.threads[t].pc ==
                  if o.failed then Panicked
                  else if sh.lock.phase.Found? then Fill(v, sh.lock.phase.symbol, sh.lock.phase.text)
                  else Writing(v)
  {
    hide Work, ShardOk, Configured, CacheOk, ReturnedOk;
    assert ThreadOk(cfg, s.mended, s.id, s.shards, s.threads[t]);
  }

  lemma WritingFair(cfg: Config, s0: State, moves: seq<(nat, Move)>, s: State, t: nat)
    requires Fair(cfg, s0, moves, s) && Inv(cfg, s) && !s.crashed && t < |s.threads| && s.threads[t].pc.Writing?
    requires StepInterning(cfg, s, t).Some?
    ensures Fair(cfg, s0, moves + [(t, Step)], StepInterning(cfg, s, t).value)
  {
    hide Work, ShardOk, Configured, ShardFair, StepInterning, Misfit, ThreadFair, Last;
    var s' := StepInterning(cfg, s, t).value;
    var v := s.threads[t].pc.value;
    var i := ShardOf(cfg, v);
    WritingIs(cfg, s, t);
    assert ThreadFair(cfg, s, moves, t);
    WritingLast(cfg, s, moves, t);
    LastAsked(moves, t, v);
    WorkFair(cfg, s.mem, i, s.shards[i], s0.shards[i].strings, moves, t);
    forall j | 0 <= j < |s'.shards| ensures ShardFair(cfg, j, s0.shards[j].strings, moves + [(t, Step)], s'.shards[j]) {
      if j != i { SameFair(cfg, j, s0.shards[j].strings, moves, t, Step, s.shards[j], s'.shards[j]); }
    }
    assert Onward(s, s');
    LastStep(moves, t, Step, t);
    forall u | 0 <= u < |s'.threads| ensures ThreadFair(cfg, s', moves + [(t, Step)], u) {
      if u != t {
        OtherFair(cfg, s, s', moves, t, Step, u);
      } else {
        WritingThread(cfg, s', moves + [(t, Step)], t, v);
      }
    }
    if s'.crashed { assert |s'.shards[i].strings| > INDEX_LIMIT; }
  }

  lemma WritingLast(cfg: Config, s: State, moves: seq<(nat, Move)>, t: nat)
    requires Shape(cfg, s) && t < |s.threads| && s.threads[t].pc.Writing? && ThreadFair(cfg, s, moves, t)
    ensures Last(moves, t) == Some(Call(s.threads[t].pc.value, true))
  {
  }

  lemma WritingThread(cfg: Config, s: State, moves: seq<(nat, Move)>, t: nat, v: Str)
    requires Shape(cfg, s) && t < |s.threads| && Last(moves, t) == Some(Call(v, true))
    requires var pc := s.threads[t].pc;
             (pc.Panicked? && (s.crashed || Barred(cfg, s, v))) || (pc.Fill? && pc.value == v) || pc == Writing(v)
    ensures ThreadFair(cfg, s, moves, t)
  {
    hide Configured, ShardOf, Last;
  }

  /** Every move keeps the accounts in order. */
  lemma DoFair(cfg: Config, s0: State, moves: seq<(nat, Move)>, s: State, t: nat, m: Move)
    requires Fair(cfg, s0, moves, s) && Inv(cfg, s) && Do(cfg, s, t, m).Some?
    ensures Fair(cfg, s0, moves + [(t, m)], Do(cfg, s, t, m).value)
  {
    hide Fair, Inv, StepInterning, StepRead, StepSnapshot;
    FairShape(cfg, s0, moves, s);
    if !m.Step? {
      BeginFair(cfg, s0, moves, s, t, m);
    } else if !Interning(s.threads[t].pc) {
      ReadFair(cfg, s0, moves, s, t);
    } else if s.threads[t].pc.Writing? {
      WritingFair(cfg, s0, moves, s, t);
    } else {
      InterningFair(cfg, s0, moves, s, t);
    }
  }

  lemma FairShape(cfg: Config, s0: State, moves: seq<(nat, Move)>, s: State)
    requires Fair(cfg, s0, moves, s)
    ensures Shape(cfg, s0) && Shape(cfg, s)
  {
  }

  lemma InitFair(cfg: Config, s0: State)
    requires Init(cfg, s0)
    ensures Fair(cfg, s0, [], s0)
  {
    hide LoadedChunks, Size, WellFormed, HoldsAt, Configured;
    forall i | 0 <= i < |s0.shards| ensures ShardFair(cfg, i, s0.shards[i].strings, [], s0.shards[i]) {
      assert s0.shards[i] == LoadedShard(cfg, i, s0.shards[i].strings);
    }
  }

  lemma {:induction false} RunFair(cfg: Config, s0: State, moves: seq<(nat, Move)>)
    requires Init(cfg, s0) && Run(cfg, s0, moves).Some?
    ensures Fair(cfg, s0, moves, Run(cfg, s0, moves).value)
    decreases |moves|
  {
    hide Fair, Init, Inv, Do;
    InitShape(cfg, s0);
    if moves == [] {
      InitFair(cfg, s0);
    } else {
      var n := |moves| - 1;
      RunFair(cfg, s0, moves[..n]);
      InitInv(cfg, s0);
      RunKeeps(cfg, s0, moves[..n]);
      DoFair(cfg, s0, moves[..n], Run(cfg, s0, moves[..n]).value, moves[n].0, moves[n].1);
      assert moves == moves[..n] + [moves[n]];
    }
  }

  // ----- when a call may fail

  /**
    In every run from a new or loaded interner, a shard is poisoned only if some text
    that was called for belongs there, is not stored, and has no room.
   */
  lemma PoisonedMisfit(cfg: Config, s0: State, moves: seq<(nat, Move)>, i: nat) returns (v: Str)
    requires Init(cfg, s0) && Run(cfg, s0, moves).Some? && i < |Run(cfg, s0, moves).value.shards|
    requires Run(cfg, s0, moves).value.shards[i].poisoned
    ensures Asked(moves, v) && !IsStatic(v) && Configured(cfg) && ShardOf(cfg, v) == i
    ensures var vs := Run(cfg, s0, moves).value.shards[i].strings; v !in vs && Size(vs) + Padded(|v|) > cfg.region
  {
    hide Init, Run, ThreadFair, Asked;
    RunFair(cfg, s0, moves);
    var s := Run(cfg, s0, moves).value;
    assert ShardFair(cfg, i, s0.shards[i].strings, moves, s.shards[i]);
    v :| Asked(moves, v) && Misfit(cfg, i, s.shards[i].strings, v);
  }

  /**
    Unless the run crashed, a thread panics only in a `get_or_intern` whose text is not
    stored, and whose shard some text that was called for has no room in.
   */
  lemma PanickedMisfit(cfg: Config, s0: State, moves: seq<(nat, Move)>, t: nat) returns (w: Str, v: Str)
    requires Init(cfg, s0) && Run(cfg, s0, moves).Some? && t < |Run(cfg, s0, moves).value.threads|
    requires var s := Run(cfg, s0, moves).value; s.threads[t].pc.Panicked? && !s.crashed
    ensures Last(moves, t) == Some(Call(w, true))
    ensures Asked(moves, v) && !IsStatic(w) && !IsStatic(v) && Configured(cfg) && ShardOf(cfg, v) == ShardOf(cfg, w)
    ensures var s := Run(cfg, s0, moves).value;
            && ShardOf(cfg, w) < |s.shards|
            && var vs := s.shards[ShardOf(cfg, w)].strings;
               w !in vs && v !in vs && Size(vs) + Padded(|v|) > cfg.region
  {
    hide Init, Run, ShardFair, Asked;
    RunFair(cfg, s0, moves);
    var s := Run(cfg, s0, moves).value;
    assert ThreadFair(cfg, s, moves, t);
    w := Last(moves, t).value.value;
    v := PoisonedMisfit(cfg, s0, moves, ShardOf(cfg, w));
  }

  /** A run crashes only if some shard has more strings than symbols can name. */
  lemma CrashedFull(cfg: Config, s0: State, moves: seq<(nat, Move)>)
    requires Init(cfg, s0) && Run(cfg, s0, moves).Some? && Run(cfg, s0, moves).value.crashed
    ensures exists i :: 0 <= i < |Run(cfg, s0, moves).value.shards|
                        && |Run(cfg, s0, moves).value.shards[i].strings| > INDEX_LIMIT
  {
    hide Init, Run, ShardFair, ThreadFair;
    RunFair(cfg, s0, moves);
  }

  // ----- texts that fit

  /** `plan` has room for what every shard holds and for every text that is called for. */
  ghost predicate RoomForAll(cfg: Config, s0: State, moves: seq<(nat, Move)>, plan: Shards) {
    && Configured(cfg) && |plan| == |s0.shards| == cfg.count
    && (forall i | 0 <= i < |plan| :: Size(plan[i]) <= cfg.region && |plan[i]| <= INDEX_LIMIT)
    && (forall i, v | 0 <= i < |plan| && v in s0.shards[i].strings :: v in plan[i])
    && (forall v | Asked(moves, v) && !IsStatic(v) :: v in plan[ShardOf(cfg, v)])
  }

  /** Different texts take no more room than a list that has them all. */
  lemma {:induction false} FewerSmaller(vs: seq<Str>, ws: seq<Str>)
    requires Distinct(vs) && forall v | v in vs :: v in ws
    ensures Size(vs) <= Size(ws) && |vs| <= |ws|
    decreases |vs|
  {
    hide Padded;
    if vs != [] {
      var n := |vs| - 1;
      assert vs[n] in vs && forall v | v in vs[..n] :: v in vs && v in ws;
      var j :| 0 <= j < |ws| && ws[j] == vs[n];
      var others := ws[..j] + ws[j + 1..];
      forall v | v in vs[..n] ensures v in others {
        var k :| 0 <= k < |ws| && ws[k] == v;
        if k < j { assert ws[..j][k] == v; } else { assert ws[j + 1..][k - j - 1] == v; }
      }
      FewerSmaller(vs[..n], others);
      WithoutOne(ws, j);
      assert vs == vs[..n] + [vs[n]];
      OffAppend(vs[..n], vs[n], n);
    }
  }

  lemma WithoutOne(ws: seq<Str>, j: nat)
    requires j < |ws|
    ensures Size(ws[..j] + ws[j + 1..]) + Padded(|ws[j]|) == Size(ws)
  {
    hide Padded;
    assert ws == ws[..j] + ([ws[j]] + ws[j + 1..]);
    OffConcat(ws[..j], [ws[j]] + ws[j + 1..], |ws| - j);
    OffConcat([ws[j]], ws[j + 1..], |ws| - j - 1);
    OffConcat(ws[..j], ws[j + 1..], |ws| - j - 1);
    assert Off([ws[j]], 1) == Padded(|ws[j]|);
  }

  /** A shard's strings are among those that were planned for it. */
  lemma Planned(cfg: Config, s0: State, moves: seq<(nat, Move)>, plan: Shards, i: nat)
    requires Init(cfg, s0) && Run(cfg, s0, moves).Some? && RoomForAll(cfg, s0, moves, plan) && i < |plan|
    ensures var s := Run(cfg, s0, moves).value;
            && i < |s.shards| && ShardStrings(cfg, i, s.shards[i].strings)
            && forall v | v in s.shards[i].strings :: v in plan[i]
  {
    hide Init, Run, ThreadFair, Asked, ThreadOk, ReturnedOk, SlotsOk, EntriesOk, PhaseOk;
    RunFair(cfg, s0, moves);
    InitInv(cfg, s0);
    assert Shape(cfg, s0) by { InitShape(cfg, s0); }
    RunKeeps(cfg, s0, moves);
    var s := Run(cfg, s0, moves).value;
    assert ShardFair(cfg, i, s0.shards[i].strings, moves, s.shards[i]);
    assert ShardOk(cfg, s.mem, i, s.shards[i]);
    forall v | v in s.shards[i].strings ensures v in plan[i] {
      var k :| 0 <= k < |s.shards[i].strings| && s.shards[i].strings[k] == v;
      assert Belongs(cfg, i, v);
    }
  }

  /** With room for all nothing is poisoned, no thread panics and the run does not crash. */
  lemma NoFailures(cfg: Config, s0: State, moves: seq<(nat, Move)>, plan: Shards)
    requires Init(cfg, s0) && Run(cfg, s0, moves).Some? && RoomForAll(cfg, s0, moves, plan)
    ensures var s := Run(cfg, s0, moves).value;
            && !s.crashed
            && (forall i | 0 <= i < |s.shards| :: !s.shards[i].poisoned)
            && (forall t | 0 <= t < |s.threads| :: !s.threads[t].pc.Panicked?)
  {
    InitShape(cfg, s0);
    hide Init, Run, Asked, Belongs;
    var s := Run(cfg, s0, moves).value;
    forall i | 0 <= i < |plan| ensures i < |s.shards| && |s.shards[i].strings| <= INDEX_LIMIT {
      Planned(cfg, s0, moves, plan, i);
      FewerSmaller(s.shards[i].strings, plan[i]);
    }
    if s.crashed { CrashedFull(cfg, s0, moves); assert false; }
    forall i | 0 <= i < |s.shards| ensures !s.shards[i].poisoned {
      if s.shards[i].poisoned { PoisonedNever(cfg, s0, moves, plan, i); }
    }
    RunFair(cfg, s0, moves);
    forall t | 0 <= t < |s.threads| ensures !s.threads[t].pc.Panicked? { assert ThreadFair(cfg, s, moves, t); }
  }

  lemma PoisonedNever(cfg: Config, s0: State, moves: seq<(nat, Move)>, plan: Shards, i: nat)
    requires Init(cfg, s0) && Run(cfg, s0, moves).Some? && RoomForAll(cfg, s0, moves, plan)
    requires i < |Run(cfg, s0, moves).value.shards|
    ensures !Run(cfg, s0, moves).value.shards[i].poisoned
  {
    InitShape(cfg, s0);
    hide Init, Run, Asked, Belongs, Padded;
    if Run(cfg, s0, moves).value.shards[i].poisoned {
      var vs := Run(cfg, s0, moves).value.shards[i].strings;
      var v := PoisonedMisfit(cfg, s0, moves, i);
      Planned(cfg, s0, moves, plan, i);
      assert Distinct(vs + [v]);
      forall w | w in vs + [v] ensures w in plan[i] {}
      FewerSmaller(vs + [v], plan[i]);
      OffAppend(vs, v, |vs|);
    }
  }

  // ----- and all calls return

  lemma {:induction false} RunTwo(cfg: Config, s: State, moves: seq<(nat, Move)>, steps: seq<(nat, Move)>)
    requires Shape(cfg, s) && Run(cfg, s, moves).Some? && Run(cfg, Run(cfg, s, moves).value, steps).Some?
    ensures Run(cfg, s, moves + steps) == Run(cfg, Run(cfg, s, moves).value, steps)
    decreases |steps|
  {
    hide Do;
    if steps == [] {
      assert moves + steps == moves;
    } else {
      var n := |steps| - 1;
      RunTwo(cfg, s, moves, steps[..n]);
      assert (moves + steps)[..|moves + steps| - 1] == moves + steps[..n];
    }
  }

  lemma {:induction false} StepsAsk(moves: seq<(nat, Move)>, steps: seq<(nat, Move)>, v: Str)
    requires OnlySteps(steps)
    ensures Asked(moves + steps, v) <==> Asked(moves, v)
  {
    forall k | |moves| <= k < |moves + steps| ensures (moves + steps)[k].1.Step? {
      assert (moves + steps)[k] == steps[k - |moves|];
    }
    if k :| 0 <= k < |moves + steps| && (moves + steps)[k].1 == Call(v, true) { assert moves[k].1 == Call(v, true); }
    if k :| 0 <= k < |moves| && moves[k].1 == Call(v, true) { assert (moves + steps)[k] == moves[k]; }
  }

  /**
    If there is room for every text that is called for, then every schedule of the calls
    under way ends, after a bounded number of steps, with all of them returned: each
    thread is idle, and a `get_or_intern` has given its text a symbol.
   */
  lemma AllCallsReturn(cfg: Config, s0: State, moves: seq<(nat, Move)>, steps: seq<(nat, Move)>, plan: Shards)
    requires Init(cfg, s0) && Run(cfg, s0, moves).Some? && OnlySteps(steps) && RoomForAll(cfg, s0, moves, plan)
    requires Run(cfg, Run(cfg, s0, moves).value, steps).Some?
    ensures var s := Run(cfg, s0, moves).value; var s' := Run(cfg, s, steps).value;
            && !s'.crashed && |steps| <= Total(cfg, s, |s.threads|)
            && ((exists u :: CanStep(cfg, s', u))
                || forall t | 0 <= t < |s'.threads| ::
                     s'.threads[t].pc.Idle?
                     && forall v | Last(moves + steps, t) == Some(Call(v, true)) :: Answered(s', v))
  {
    InitShape(cfg, s0);
    hide Init, Run, CanStep, Total, Asked, ShardFair, Last;
    var s := Run(cfg, s0, moves).value;
    var s' := Run(cfg, s, steps).value;
    NoFailures(cfg, s0, moves, plan);
    RunTwo(cfg, s0, moves, steps);
    forall v | Asked(moves + steps, v) ensures Asked(moves, v) { StepsAsk(moves, steps, v); }
    NoFailures(cfg, s0, moves + steps, plan);
    AllCallsEnd(cfg, s0, moves, steps);
    RunFair(cfg, s0, moves + steps);
    if !exists u :: CanStep(cfg, s', u) {
      forall t | 0 <= t < |s'.threads|
        ensures s'.threads[t].pc.Idle? && forall v | Last(moves + steps, t) == Some(Call(v, true)) :: Answered(s', v)
      {
        assert AtRest(s'.threads[t].pc);
        assert ThreadFair(cfg, s', moves + steps, t);
      }
    }
  }
}
