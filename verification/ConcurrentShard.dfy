/**
  What every shard satisfies between any two steps, and why each step of the
  critical section keeps it.
 */
module ConcurrentShard {
  import opened Bytes
  import opened Records
  import opened Symbols
  import opened InternerModel
  import opened ConcurrentInterner

  /** How many of the shard's strings have their length counted, their offset stored, their entry made. */
  function Counted(sh: Shard): int {
    |sh.strings| - if sh.lock.Exclusive? && sh.lock.phase.Push? then 1 else 0
  }

  function Stored(sh: Shard): int {
    |sh.strings| -
    if sh.lock.Exclusive? && (sh.lock.phase.Push? || sh.lock.phase.Chunk?
                              || sh.lock.phase.Install? || sh.lock.phase.Slot?)
    then 1 else 0
  }

  function Entered(sh: Shard): int {
    Stored(sh) - if sh.lock.Exclusive? && sh.lock.phase.Enter? then 1 else 0
  }

  ghost predicate RegionOk(cfg: Config, mem: seq<Byte>, i: nat, sh: Shard)
    requires Configured(cfg)
  {
    && HoldsAt(mem, Base(cfg, i), sh.strings)
    && sh.cursor == Size(sh.strings) <= cfg.region
    && ShardStrings(cfg, i, sh.strings)
  }

  /** Slots are the offsets of the stored strings, and zero beyond. */
  ghost predicate SlotsOk(cfg: Config, i: nat, sh: Shard)
    requires Configured(cfg)
  {
    && sh.len == Counted(sh)
    && (forall c | c in sh.chunks :: |sh.chunks[c]| == CHUNK_SIZE)
    && (forall k: nat :: SlotValue(sh.chunks, k) ==
          if k < Stored(sh) then Offset(cfg, i, sh.strings, k) else 0)
  }

  /** The hash table lists the entered strings and nothing else. */
  ghost predicate EntriesOk(cfg: Config, i: nat, sh: Shard) {
    && Entered(sh) <= INDEX_LIMIT
    && (forall k | 0 <= k < Entered(sh) :: EntryOf(cfg, i, sh.strings, k) in sh.entries)
    && (forall e | e in sh.entries :: exists k | 0 <= k < Entered(sh) :: e == EntryOf(cfg, i, sh.strings, k))
  }

  /** `v` is the shard's newest string and `offset` its record. */
  ghost predicate Newest(cfg: Config, i: nat, vs: seq<Str>, v: Str, offset: nat)
    requires Configured(cfg)
  {
    |vs| > 0 && vs[|vs| - 1] == v && offset == Offset(cfg, i, vs, |vs| - 1)
  }

  /** String `k` of the shard is `v`; `symbol` and `text` are its symbol and the offset of its text. */
  ghost predicate Names(cfg: Config, i: nat, vs: seq<Str>, k: nat, v: Str, symbol: nat, text: nat)
    requires Configured(cfg)
  {
    k < |vs| && vs[k] == v && symbol == Pack(i, k) && text == Offset(cfg, i, vs, k) + 4
  }

  /** As `Names`, for a string that is in the hash table. */
  ghost predicate EnteredAs(cfg: Config, i: nat, sh: Shard, k: nat, v: Str, symbol: nat, text: nat)
    requires Configured(cfg)
  {
    k < Entered(sh) && Names(cfg, i, sh.strings, k, v, symbol, text)
  }

  ghost predicate PhaseOk(cfg: Config, mem: seq<Byte>, i: nat, sh: Shard)
    requires Configured(cfg)
  {
    sh.lock.Exclusive? ==>
      var v := sh.lock.value;
      && Belongs(cfg, i, v)
      && match sh.lock.phase
         case Recheck => true
         case Copy(done) =>
           && v !in sh.strings
           && sh.cursor + Padded(|v|) <= cfg.region
           && done <= 4 + |v|
           && Base(cfg, i) + sh.cursor + done <= |mem|
           && mem[Base(cfg, i) + sh.cursor..Base(cfg, i) + sh.cursor + done] == Image(v)[..done]
         case Push(offset) => Newest(cfg, i, sh.strings, v, offset)
         case Chunk(offset, index) => Newest(cfg, i, sh.strings, v, offset) && index == |sh.strings| - 1
         case Install(offset, index) => Newest(cfg, i, sh.strings, v, offset) && index == |sh.strings| - 1
         case Slot(offset, index) =>
           Newest(cfg, i, sh.strings, v, offset) && index == |sh.strings| - 1 && ChunkOf(index) in sh.chunks
         case Enter(offset, index) => Newest(cfg, i, sh.strings, v, offset) && index == |sh.strings| - 1
         case Found(symbol, text) => exists k :: EnteredAs(cfg, i, sh, k, v, symbol, text)
  }

  ghost predicate ShardOk(cfg: Config, mem: seq<Byte>, i: nat, sh: Shard) {
    && Configured(cfg)
    && i < cfg.count
    && |mem| == cfg.capacity + 4
    && RegionOk(cfg, mem, i, sh)
    && SlotsOk(cfg, i, sh)
    && EntriesOk(cfg, i, sh)
    && PhaseOk(cfg, mem, i, sh)
  }

  // ----- geometry

  /** A shard's invariant reads only its own region. */
  lemma ShardFrame(cfg: Config, mem: seq<Byte>, mem': seq<Byte>, i: nat, sh: Shard)
    requires ShardOk(cfg, mem, i, sh) && |mem'| == |mem|
    requires var b := Base(cfg, i); var r := cfg.region;
             b + r <= |mem| && mem[b..b + r] == mem'[b..b + r]
    ensures ShardOk(cfg, mem', i, sh)
  {
    hide Prefix8, Word32, SlotsOk, EntriesOk, Base, Padded, Belongs;
    var b, r := Base(cfg, i), cfg.region;
    RegionBounds(cfg, i);
    SliceOfSlice(mem, b, r, 0, sh.cursor);
    SliceOfSlice(mem', b, r, 0, sh.cursor);
    HoldsFrame(mem, mem', b, b, sh.strings);
    if sh.lock.Exclusive? && sh.lock.phase.Copy? {
      SliceOfSlice(mem, b, r, sh.cursor, sh.cursor + sh.lock.phase.done);
      SliceOfSlice(mem', b, r, sh.cursor, sh.cursor + sh.lock.phase.done);
    }
  }

  // ----- lookups

  /** The record of a stored string reads back as the string. */
  lemma ReadsBack(cfg: Config, mem: seq<Byte>, i: nat, sh: Shard, k: nat)
    requires ShardOk(cfg, mem, i, sh) && k < |sh.strings|
    ensures RecordAt(mem, Offset(cfg, i, sh.strings, k), sh.strings[k])
    ensures Offset(cfg, i, sh.strings, k) + Padded(|sh.strings[k]|) <= cfg.capacity
    ensures ReadText(mem, Offset(cfg, i, sh.strings, k)) == sh.strings[k]
  {
    hide Prefix8, Word32, SlotsOk, EntriesOk, PhaseOk, Base;
    assert HoldsRecord(mem, Base(cfg, i), sh.strings, k);
    OffMonotone(sh.strings, k, |sh.strings|);
    RegionBounds(cfg, i);
  }

  /** An entry matches a value exactly when it is the entry of that value. */
  lemma EntryMeaning(cfg: Config, mem: seq<Byte>, i: nat, sh: Shard, v: Str, k: nat)
    requires ShardOk(cfg, mem, i, sh) && k < Entered(sh)
    ensures EntryMatches(cfg, mem, sh, v, EntryOf(cfg, i, sh.strings, k)) <==> sh.strings[k] == v
    ensures Index(EntryOf(cfg, i, sh.strings, k).symbol) == k
    ensures SlotValue(sh.chunks, k) == Offset(cfg, i, sh.strings, k)
  {
    hide Prefix8, Word32, ReadText, Padded, RegionOk, PhaseOk, Pack, Index;
    PackRoundTrip(i, k);
    ReadsBack(cfg, mem, i, sh, k);
  }

  /** The hash table answers as a search of the shard's strings would. */
  lemma LookupMeaning(cfg: Config, mem: seq<Byte>, i: nat, sh: Shard, v: Str)
    requires ShardOk(cfg, mem, i, sh)
    ensures var r := FindEntry(cfg, mem, sh, v);
            match r
            case Some(e) =>
              exists k :: EnteredAs(cfg, i, sh, k, v, e.symbol, TextOf(sh, e.symbol))
            case None => forall k | 0 <= k < Entered(sh) :: sh.strings[k] != v
  {
    match FindEntry(cfg, mem, sh, v)
    case Some(e) =>
      var k :| 0 <= k < Entered(sh) && e == EntryOf(cfg, i, sh.strings, k);
      EntryMeaning(cfg, mem, i, sh, v, k);
      assert EnteredAs(cfg, i, sh, k, v, e.symbol, TextOf(sh, e.symbol));
    case None =>
      forall k | 0 <= k < Entered(sh) ensures sh.strings[k] != v {
        EntryMeaning(cfg, mem, i, sh, v, k);
      }
  }

  // ----- the critical section

  ghost predicate SameOutside(cfg: Config, i: nat, mem: seq<Byte>, mem': seq<Byte>) {
    && |mem'| == |mem|
    && forall q | 0 <= q < |mem| && !(Base(cfg, i) <= q < Base(cfg, i) + cfg.region) :: mem'[q] == mem[q]
  }

  /** Strings only accumulate, and what was stored or entered stays so. */
  ghost predicate Grows(sh: Shard, sh': Shard) {
    sh.strings <= sh'.strings && Stored(sh) <= Stored(sh') && Entered(sh) <= Entered(sh')
  }

  /** Taking and releasing the lock outside the publishing phases. */
  lemma LockChange(cfg: Config, mem: seq<Byte>, i: nat, sh: Shard, sh': Shard)
    requires ShardOk(cfg, mem, i, sh)
    requires sh' == sh.(lock := sh'.lock, poisoned := sh'.poisoned)
    requires sh.lock.Exclusive? ==> sh.lock.phase.Recheck? || sh.lock.phase.Found?
    requires sh'.lock.Exclusive? ==> sh'.lock.phase.Recheck? || sh'.lock.phase.Copy? || sh'.lock.phase.Found?
    requires PhaseOk(cfg, mem, i, sh')
    ensures ShardOk(cfg, mem, i, sh') && Grows(sh, sh')
  {
  }

  lemma WorkRecheck(cfg: Config, mem: seq<Byte>, i: nat, sh: Shard)
    requires ShardOk(cfg, mem, i, sh) && sh.lock.Exclusive? && sh.lock.phase.Recheck?
    ensures var o := Work(cfg, mem, i, sh).value;
            o.mem == mem && ShardOk(cfg, mem, i, o.shard) && Grows(sh, o.shard)
  {
    hide Prefix8, Word32, EntryMatches, EntriesOk, SlotsOk, TextOf, Pack;
    LookupMeaning(cfg, mem, i, sh, sh.lock.value);
    var sh' := Work(cfg, mem, i, sh).value.shard;
    RegionBounds(cfg, i);
    if sh'.lock.Exclusive? && sh'.lock.phase.Copy? {
      var p := Base(cfg, i) + sh.cursor;
      assert mem[p..p] == Image(sh.lock.value)[..0];
    }
    if sh'.lock.Exclusive? && sh'.lock.phase.Found? {
      var v, symbol, text := sh.lock.value, sh'.lock.phase.symbol, sh'.lock.phase.text;
      var k :| EnteredAs(cfg, i, sh, k, v, symbol, text);
      assert EnteredAs(cfg, i, sh', k, v, symbol, text);
    }
    LockChange(cfg, mem, i, sh, sh');
  }

  lemma WriteByte(mem: seq<Byte>, b: nat, a: nat, p: nat, x: Byte)
    requires b <= a <= p < |mem|
    ensures mem[p := x][b..a] == mem[b..a]
    ensures mem[p := x][a..p + 1] == mem[a..p] + [x]
  {
  }

  lemma NextByte(image: seq<Byte>, k: nat)
    requires k < |image|
    ensures image[..k + 1] == image[..k] + [image[k]]
  {
  }

  /** One byte written behind the committed records of a region. */
  lemma CopyByte(cfg: Config, mem: seq<Byte>, i: nat, sh: Shard, v: Str, done: nat)
    requires Configured(cfg) && i < cfg.count && |mem| == cfg.capacity + 4 && |v| < MAX_LEN
    requires HoldsAt(mem, Base(cfg, i), sh.strings) && sh.cursor == Size(sh.strings)
    requires sh.cursor + Padded(|v|) <= cfg.region && done < 4 + |v|
    requires var a := Base(cfg, i) + sh.cursor; a + done <= |mem| && mem[a..a + done] == Image(v)[..done]
    ensures var a := Base(cfg, i) + sh.cursor;
            && a + done < |mem|
            && var mem' := mem[a + done := Image(v)[done]];
               && HoldsAt(mem', Base(cfg, i), sh.strings) && SameOutside(cfg, i, mem, mem')
               && mem'[a..a + done + 1] == Image(v)[..done + 1]
  {
    hide Word32, Image, Base, HoldsAt, Size, IsShardCount;
    var b := Base(cfg, i);
    RegionBounds(cfg, i);
    var p := b + sh.cursor + done;
    var mem' := mem[p := Image(v)[done]];
    WriteByte(mem, b, b + sh.cursor, p, Image(v)[done]);
    NextByte(Image(v), done);
    HoldsFrame(mem, mem', b, b, sh.strings);
  }

  /** Copying writes one byte behind the committed records of its own region. */
  lemma WorkCopyByte(cfg: Config, mem: seq<Byte>, i: nat, sh: Shard)
    requires ShardOk(cfg, mem, i, sh) && sh.lock.Exclusive? && sh.lock.phase.Copy?
    requires sh.lock.phase.done < 4 + |sh.lock.value|
    ensures var o := Work(cfg, mem, i, sh);
            && o.Some?
            && SameOutside(cfg, i, mem, o.value.mem)
            && ShardOk(cfg, o.value.mem, i, o.value.shard) && Grows(sh, o.value.shard)
  {
    hide Prefix8, Word32, Image, EntriesOk, SlotsOk, Base, HoldsAt, ShardStrings, Size, SameOutside, Padded, Configured;
    CopyByte(cfg, mem, i, sh, sh.lock.value, sh.lock.phase.done);
    var sh' := Work(cfg, mem, i, sh).value.shard;
    SameParts(cfg, i, sh, sh');
  }

  /** Slots and entries say nothing about a copy under way. */
  lemma SameParts(cfg: Config, i: nat, sh: Shard, sh': Shard)
    requires Configured(cfg) && SlotsOk(cfg, i, sh) && EntriesOk(cfg, i, sh)
    requires sh.lock.Exclusive? && sh.lock.phase.Copy? && sh'.lock.Exclusive? && sh'.lock.phase.Copy?
    requires sh' == sh.(lock := sh'.lock)
    ensures SlotsOk(cfg, i, sh') && EntriesOk(cfg, i, sh')
  {
    SameSlots(cfg, i, sh, sh');
    SameEntries(cfg, i, sh, sh');
  }

  /** The record copied behind the cursor is the next one of its region. */
  lemma CommitRegion(cfg: Config, mem: seq<Byte>, i: nat, sh: Shard)
    requires ShardOk(cfg, mem, i, sh) && sh.lock.Exclusive? && sh.lock.phase.Copy?
    requires sh.lock.phase.done == 4 + |sh.lock.value|
    ensures var vs := sh.strings + [sh.lock.value];
            && HoldsAt(mem, Base(cfg, i), vs) && ShardStrings(cfg, i, vs)
            && Size(vs) == sh.cursor + Padded(|sh.lock.value|) <= cfg.region && Off(vs, |sh.strings|) == sh.cursor
  {
    hide Prefix8, SlotsOk, EntriesOk, Word32, HoldsAt, ShardStrings, Belongs, Base, Padded;
    var b, v := Base(cfg, i), sh.lock.value;
    var p, vs := b + sh.cursor, sh.strings;
    RegionBounds(cfg, i);
    var image := mem[p..p + 4 + |v|];
    assert image == Image(v);
    assert mem[p..p + 4] == image[..4] == Le32(|v|);
    assert mem[p + 4..p + 4 + |v|] == image[4..] == v;
    HoldsAppend(mem, b, vs, v);
    ShardAppend(cfg, i, vs, v);
    OffAppend(vs, v, |vs|);
  }

  /** Raising the cursor commits a whole record. */
  lemma WorkCommit(cfg: Config, mem: seq<Byte>, i: nat, sh: Shard)
    requires ShardOk(cfg, mem, i, sh) && sh.lock.Exclusive? && sh.lock.phase.Copy?
    requires sh.lock.phase.done == 4 + |sh.lock.value|
    ensures var o := Work(cfg, mem, i, sh).value;
            o.mem == mem && ShardOk(cfg, mem, i, o.shard) && Grows(sh, o.shard)
  {
    hide Prefix8, EntriesOk, Word32, HoldsAt, ShardStrings, Image, Base, Padded, Off, Size;
    CommitRegion(cfg, mem, i, sh);
    var sh' := Work(cfg, mem, i, sh).value.shard;
    SameSlots(cfg, i, sh, sh');
    SameEntries(cfg, i, sh, sh');
  }

  /** Slots and entries are unaffected by strings that are not yet stored or entered. */
  lemma SameSlots(cfg: Config, i: nat, sh: Shard, sh': Shard)
    requires Configured(cfg) && SlotsOk(cfg, i, sh)
    requires sh'.chunks == sh.chunks && sh'.len - Counted(sh') == sh.len - Counted(sh) && sh.strings <= sh'.strings
    requires Stored(sh') == Stored(sh)
    ensures SlotsOk(cfg, i, sh')
  {
    forall k: nat | k < Stored(sh) ensures Off(sh'.strings, k) == Off(sh.strings, k) {
      assert sh'.strings[..k] == sh.strings[..k];
      OffAgrees(sh'.strings, sh.strings, k);
    }
  }

  lemma SameEntries(cfg: Config, i: nat, sh: Shard, sh': Shard)
    requires EntriesOk(cfg, i, sh)
    requires sh'.entries == sh.entries && sh.strings <= sh'.strings && Entered(sh') == Entered(sh)
    ensures EntriesOk(cfg, i, sh')
  {
    forall k | 0 <= k < Entered(sh) ensures EntryOf(cfg, i, sh'.strings, k) == EntryOf(cfg, i, sh.strings, k) {
    }
    forall e | e in sh'.entries ensures exists k | 0 <= k < Entered(sh') :: e == EntryOf(cfg, i, sh'.strings, k) {
      var k :| 0 <= k < Entered(sh) && e == EntryOf(cfg, i, sh.strings, k);
      assert e == EntryOf(cfg, i, sh'.strings, k);
    }
  }

  /** Counting the new index and finding or installing its chunk changes no slot. */
  lemma WorkChunk(cfg: Config, mem: seq<Byte>, i: nat, sh: Shard)
    requires ShardOk(cfg, mem, i, sh) && sh.lock.Exclusive?
    requires sh.lock.phase.Push? || sh.lock.phase.Chunk? || sh.lock.phase.Install?
    ensures var o := Work(cfg, mem, i, sh).value;
            o.mem == mem && ShardOk(cfg, mem, i, o.shard) && Grows(sh, o.shard)
  {
    var sh' := Work(cfg, mem, i, sh).value.shard;
    forall k: nat ensures SlotValue(sh'.chunks, k) == SlotValue(sh.chunks, k) {
    }
    SameEntries(cfg, i, sh, sh');
  }

  /** Storing the offset makes exactly the new index readable. */
  lemma WorkSlot(cfg: Config, mem: seq<Byte>, i: nat, sh: Shard)
    requires ShardOk(cfg, mem, i, sh) && sh.lock.Exclusive? && sh.lock.phase.Slot?
    ensures Work(cfg, mem, i, sh).Some?
    ensures var o := Work(cfg, mem, i, sh).value;
            o.mem == mem && ShardOk(cfg, mem, i, o.shard) && Grows(sh, o.shard)
  {
    var offset, index := sh.lock.phase.offset, sh.lock.phase.index;
    var sh' := Work(cfg, mem, i, sh).value.shard;
    forall k: nat
      ensures SlotValue(sh'.chunks, k) == if k == index then offset else SlotValue(sh.chunks, k)
    {
      ChunkBijection(k, index, 0, 0);
    }
    SameEntries(cfg, i, sh, sh');
  }

  /** The entry makes the new string findable; an index that symbols cannot carry ends the run. */
  lemma WorkEnter(cfg: Config, mem: seq<Byte>, i: nat, sh: Shard)
    requires ShardOk(cfg, mem, i, sh) && sh.lock.Exclusive? && sh.lock.phase.Enter?
    ensures var o := Work(cfg, mem, i, sh).value;
            o.mem == mem && ShardOk(cfg, mem, i, o.shard) && Grows(sh, o.shard)
  {
    hide Prefix8, Word32, Base, Pack, HoldsAt, ShardStrings;
    var sh' := Work(cfg, mem, i, sh).value.shard;
    if sh.lock.phase.index < INDEX_LIMIT {
      var n := |sh.strings| - 1;
      var entry := EntryOf(cfg, i, sh.strings, n);
      assert sh'.entries == sh.entries + {entry};
      forall e | e in sh'.entries ensures exists k | 0 <= k < Entered(sh') :: e == EntryOf(cfg, i, sh'.strings, k) {
        if e == entry {
          assert e == EntryOf(cfg, i, sh'.strings, n);
        } else {
          var k :| 0 <= k < Entered(sh) && e == EntryOf(cfg, i, sh.strings, k);
          assert e == EntryOf(cfg, i, sh'.strings, k);
        }
      }
      assert EnteredAs(cfg, i, sh', n, sh.lock.value, Pack(i, n), sh'.lock.phase.text);
    }
  }

  /** Every step of the critical section keeps its shard's invariant and loses nothing. */
  lemma WorkKeeps(cfg: Config, mem: seq<Byte>, i: nat, sh: Shard)
    requires ShardOk(cfg, mem, i, sh) && sh.lock.Exclusive?
    ensures Work(cfg, mem, i, sh).Some?
    ensures var o := Work(cfg, mem, i, sh).value;
            && ShardOk(cfg, o.mem, i, o.shard) && Grows(sh, o.shard)
            && SameOutside(cfg, i, mem, o.mem)
  {
    match sh.lock.phase
    case Recheck => WorkRecheck(cfg, mem, i, sh);
    case Copy(done) =>
      if done < 4 + |sh.lock.value| {
        WorkCopyByte(cfg, mem, i, sh);
      } else {
        WorkCommit(cfg, mem, i, sh);
      }
    case Push(_) => WorkChunk(cfg, mem, i, sh);
    case Chunk(_, _) => WorkChunk(cfg, mem, i, sh);
    case Install(_, _) => WorkChunk(cfg, mem, i, sh);
    case Slot(_, _) => WorkSlot(cfg, mem, i, sh);
    case Enter(_, _) => WorkEnter(cfg, mem, i, sh);
    case Found(_, _) => LockChange(cfg, mem, i, sh, Work(cfg, mem, i, sh).value.shard);
  }
}
