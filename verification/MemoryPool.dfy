/**
  The byte arena of the interner. All offsets are 32-bit: Dafny checks every
  operation on `u32` against overflow, so what verifies never wraps.
 */
module MemoryPool {
  import opened Bytes
  import opened Records
  import opened InternerModel

  newtype u32 = x: int | 0 <= x < 0x1_0000_0000

  const HEADER_SIZE: u32 := 4

  /** `padded_record_size` on 32-bit lengths. */
  function PaddedSize(len: u32): (size: u32)
    requires len < MAX_LEN as u32
    ensures size as nat == Padded(len as nat)
  {
    (len + 7) / 4 * 4
  }

  lemma Aligned(region: nat, s: nat, off: nat)
    requires region % 4 == 0 && off % 4 == 0
    ensures (4 + s * region + off) % 4 == 0
  {
    var r := region / 4;
    assert s * region == 4 * (s * r);
  }

  /** Every shard's region holds its records from its start on. */
  ghost predicate Runs(cfg: Config, mem: seq<Byte>, records: seq<seq<Str>>) {
    && FitsArena(cfg) && |records| == cfg.count && |mem| == cfg.capacity
    && (forall s | 0 <= s < |records| :: Size(records[s]) <= cfg.region)
    && (forall s | 0 <= s < |records| :: HoldsAt(mem, Base(cfg, s), records[s]))
  }

  /** A write that stays behind shard `s`'s records in its own region disturbs no shard's records. */
  lemma WriteKeeps(cfg: Config, mem: seq<Byte>, mem': seq<Byte>, records: seq<seq<Str>>, s: nat, t: nat, len: nat)
    requires Runs(cfg, mem, records) && |mem'| == |mem| && s < cfg.count && t < cfg.count
    requires Size(records[s]) + len <= cfg.region
    requires var a := Base(cfg, s) + Size(records[s]);
             forall p | 0 <= p < |mem| && !(a <= p < a + len) :: mem'[p] == mem[p]
    ensures HoldsAt(mem', Base(cfg, t), records[t])
  {
    hide Base, Word32;
    RegionBounds(cfg, t);
    if t < s { BaseGap(cfg, t, s); } else if s < t { BaseGap(cfg, s, t); }
    var b, n := Base(cfg, t), Size(records[t]);
    assert mem[b..b + n] == mem'[b..b + n];
    HoldsFrame(mem, mem', b, b, records[t]);
  }

  /** Writing the next record of shard `s` extends that shard's run and keeps all others. */
  lemma CommitRecord(cfg: Config, mem: seq<Byte>, mem': seq<Byte>, records: seq<seq<Str>>, s: nat, v: Str)
    requires Runs(cfg, mem, records) && |mem'| == |mem| && s < cfg.count
    requires |v| < MAX_LEN && Size(records[s]) + Padded(|v|) <= cfg.region
    requires RecordAt(mem', Base(cfg, s) + Size(records[s]), v)
    requires var a := Base(cfg, s) + Size(records[s]);
             forall p | 0 <= p < |mem| && !(a <= p < a + 4 + |v|) :: mem'[p] == mem[p]
    ensures Runs(cfg, mem', records[s := records[s] + [v]])
    ensures Size(records[s] + [v]) == Size(records[s]) + Padded(|v|)
    ensures mem'[..4] == mem[..4]
  {
    hide Base, Word32, RecordAt;
    var records' := records[s := records[s] + [v]];
    RegionBounds(cfg, s);
    assert mem'[..4] == mem[..4];
    WriteKeeps(cfg, mem, mem', records, s, s, 4 + |v|);
    HoldsAppend(mem', Base(cfg, s), records[s], v);
    forall t | 0 <= t < |records'| ensures HoldsAt(mem', Base(cfg, t), records'[t]) {
      if t != s { WriteKeeps(cfg, mem, mem', records, s, t, 4 + |v|); }
    }
  }

  class MemoryPool {
    const capacity: u32
    const count: u32
    const region: u32
    const data: array<Byte>
    var cursors: seq<u32>
    var poisoned: seq<bool>
    /** The strings committed in each shard, in order. */
    ghost var records: seq<seq<Str>>

    ghost function Geometry(): Config {
      Config(capacity as nat, count as nat, region as nat, _ => 0)
    }

    ghost predicate Valid()
      reads this, data
    {
      && region % 4 == 0
      && |cursors| == |poisoned| == |records| == count as nat
      && data.Length == capacity as nat
      && Runs(Geometry(), data[..], records)
      && Word32(data[..4]) == count as nat
      && forall s | 0 <= s < count as nat :: cursors[s] as nat == Size(records[s])
    }

    /** `MemoryPool::new`; the requirements are its assertions. The arena's content is arbitrary. */
    constructor (capacity: u32, count: u32)
      requires count > 0 && capacity > HEADER_SIZE && Pool(capacity as nat, count as nat, _ => 0).region > 0
      ensures Valid() && fresh(data)
      ensures this.capacity == capacity && this.count == count
      ensures region as nat == Pool(capacity as nat, count as nat, _ => 0).region
      ensures records == seq(count as nat, _ => [])
      ensures poisoned == seq(count as nat, _ => false)
    {
      this.capacity := capacity;
      this.count := count;
      this.region := (capacity - HEADER_SIZE) / count / 4 * 4;
      var bytes := new Byte[capacity as nat];
      var header := Le32(count as nat);
      bytes[0], bytes[1], bytes[2], bytes[3] := header[0], header[1], header[2], header[3];
      data := bytes;
      cursors := seq(count as nat, _ => 0);
      poisoned := seq(count as nat, _ => false);
      records := seq(count as nat, _ => []);
      new;
      PoolConfigured(capacity as nat, count as nat, _ => 0);
      assert Geometry() == Pool(capacity as nat, count as nat, Geometry().hash);
      PoolConfigured(capacity as nat, count as nat, Geometry().hash);
      assert data[..4] == header;
    }

    /**
      Bump allocation of one record in a shard's region. `None` is the panic of a
      full or poisoned region: it poisons the shard and writes nothing.
     */
    method Alloc(shard: u32, value: Str) returns (r: Option<u32>)
      requires Valid() && shard < count && |value| < MAX_LEN
      modifies this`cursors, this`poisoned, this`records, data
      ensures Valid()
      ensures r.Some? <==>
                !old(poisoned[shard]) && Size(old(records[shard])) + Padded(|value|) <= region as nat
      ensures r.None? ==> data[..] == old(data[..]) && cursors == old(cursors) && records == old(records)
                          && poisoned == old(poisoned)[shard := true]
      ensures r.Some? ==>
                && r.value as nat == Base(Geometry(), shard as nat) + Size(old(records[shard]))
                && r.value % 4 == 0
                && r.value as nat + Padded(|value|) <= Base(Geometry(), shard as nat) + region as nat
                && poisoned == old(poisoned)
                && records == old(records)[shard := old(records[shard]) + [value]]
      ensures forall p | 0 <= p < data.Length && (r.None? || !(r.value as nat <= p < r.value as nat + 4 + |value|)) ::
                data[p] == old(data[p])
    {
      if poisoned[shard] {
        poisoned := poisoned[shard := true];
        return None;
      }
      var len := |value| as u32;
      var size := PaddedSize(len);
      var current := cursors[shard];
      if size > region - current {
        poisoned := poisoned[shard := true];
        return None;
      }
      var offset := Place(shard, size, value);
      r := Some(offset);
    }

    /** The successful half of `Alloc`: write the record, then raise the cursor. */
    method Place(shard: u32, size: u32, value: Str) returns (offset: u32)
      requires Valid() && shard < count && |value| < MAX_LEN && size as nat == Padded(|value|)
      requires Size(records[shard]) + Padded(|value|) <= region as nat
      modifies this`cursors, this`records, data
      ensures Valid()
      ensures offset as nat == Base(Geometry(), shard as nat) + Size(old(records[shard]))
      ensures offset % 4 == 0
      ensures offset as nat + Padded(|value|) <= Base(Geometry(), shard as nat) + region as nat
      ensures records == old(records)[shard := old(records[shard]) + [value]]
      ensures forall p | 0 <= p < data.Length && !(offset as nat <= p < offset as nat + 4 + |value|) ::
                data[p] == old(data[p])
    {
      ghost var cfg, s, before := Geometry(), shard as nat, data[..];
      RegionBounds(cfg, s);
      BaseFormula(cfg, s);
      var current := cursors[shard];
      offset := HEADER_SIZE + shard * region + current;
      OffAligned(records[s], |records[s]|);
      Aligned(region as nat, s, current as nat);
      Store(offset as nat, value);
      CommitRecord(cfg, before, data[..], records, s, value);
      cursors := cursors[shard := current + size];
      records := records[s := records[s] + [value]];
      assert data[..4] == data[..][..4];
    }

    /** The length word and the copied text; the padding keeps whatever it held. */
    method Store(offset: nat, value: Str)
      requires |value| < MAX_LEN && offset + Padded(|value|) <= data.Length
      modifies data
      ensures RecordAt(data[..], offset, value)
      ensures forall p | 0 <= p < data.Length && !(offset <= p < offset + 4 + |value|) :: data[p] == old(data[p])
    {
      hide Le32, Word32;
      var word := Le32(|value|);
      data[offset], data[offset + 1], data[offset + 2], data[offset + 3] := word[0], word[1], word[2], word[3];
      for i := 0 to |value|
        invariant data[offset] == word[0] && data[offset + 1] == word[1]
                  && data[offset + 2] == word[2] && data[offset + 3] == word[3]
        invariant forall k | 0 <= k < i :: data[offset + 4 + k] == value[k]
        invariant forall p | 0 <= p < data.Length && !(offset <= p < offset + 4 + |value|) :: data[p] == old(data[p])
      {
        data[offset + 4 + i] := value[i];
      }
      assert data[..][offset..offset + 4] == word;
      assert data[..][offset + 4..offset + 4 + |value|] == value;
    }

    /** `committed_bytes`: the cursors are read first, then the header and every used part is copied. */
    method CommittedBytes() returns (out: seq<Byte>)
      requires Valid()
      ensures IsSnapshot(out, records)
    {
      hide Base, Le32;
      var used: seq<u32> := [];
      for s := 0 to count as nat
        invariant |used| == s && used == cursors[..s]
      {
        used := used + [if cursors[s] <= region then cursors[s] else region];
      }
      RegionBounds(Geometry(), 0);
      out := data[..4];
      assert records[..0] == [] && out[..4] == data[..4];
      for s := 0 to count as nat
        invariant |out| == 4 + Size(Flatten(records[..s])) && out[..4] == data[..4]
        invariant HoldsAt(out, 4, Flatten(records[..s]))
      {
        RegionBounds(Geometry(), s);
        BaseFormula(Geometry(), s);
        var start := HEADER_SIZE + s as u32 * region;
        assert start as nat == Base(Geometry(), s);
        CopyRun(out, Flatten(records[..s]), data[..], start as nat, records[s]);
        assert data[..][start..start + used[s]] == data[start..start + used[s]];
        out := out + data[start..start + used[s]];
        assert records[..s + 1][..s] == records[..s] && records[..s + 1][s] == records[s];
      }
      assert records[..count as nat] == records;
    }
  }
}
