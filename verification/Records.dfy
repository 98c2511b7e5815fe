/**
  The record layout of the string arena: a little-endian length, the text, and
  padding to the next multiple of four. The padding bytes are never written.
 */
module Records {
  import opened Bytes

  /** `padded_record_size`; the source masks with `!3`, see `PaddedIsMask`. */
  function Padded(len: nat): (n: nat)
    ensures len + 4 <= n < len + 8
  {
    (len + 7) / 4 * 4
  }

  /** Below the length limit the 32-bit masking form cannot wrap and rounds up as `Padded` does. */
  lemma PaddedIsMask(len: bv32)
    requires len < 0xFFFF_FFF8
    ensures len < len + 7
    ensures (len + 4 + 3) & !3 == ((len + 7) / 4) * 4
  {
  }

  /** Interned strings are shorter than this (`u32::MAX - 7`). */
  const MAX_LEN: nat := 0xFFFF_FFF8

  /** Byte offset of record `i` in a run of records holding `vs`. */
  function Off(vs: seq<Str>, i: nat): (n: nat)
    requires i <= |vs|
  {
    if i == 0 then 0 else Off(vs, i - 1) + Padded(|vs[i - 1]|)
  }

  function Size(vs: seq<Str>): (n: nat)
  {
    Off(vs, |vs|)
  }

  /** The bytes that interning writes for `v`; the padding is not among them. */
  function Image(v: Str): (b: seq<Byte>)
    requires |v| < MAX_LEN
    ensures |b| == 4 + |v|
  {
    Le32(|v|) + v
  }

  ghost predicate RecordAt(mem: seq<Byte>, p: nat, v: Str) {
    && |v| < MAX_LEN
    && p + Padded(|v|) <= |mem|
    && Word32(mem[p..p + 4]) == |v|
    && mem[p + 4..p + 4 + |v|] == v
  }

  ghost predicate HoldsRecord(mem: seq<Byte>, base: nat, vs: seq<Str>, i: nat)
    requires i < |vs|
  {
    RecordAt(mem, base + Off(vs, i), vs[i])
  }

  /** The records `vs` lie one after the other from `base` on. */
  ghost predicate HoldsAt(mem: seq<Byte>, base: nat, vs: seq<Str>) {
    forall i | 0 <= i < |vs| :: HoldsRecord(mem, base, vs, i)
  }

  /** Offsets depend only on the records before them. */
  lemma {:induction false} OffAgrees(vs: seq<Str>, ws: seq<Str>, i: nat)
    requires i <= |vs| && i <= |ws| && vs[..i] == ws[..i]
    ensures Off(vs, i) == Off(ws, i)
  {
    if i > 0 {
      assert vs[..i - 1] == vs[..i][..i - 1] == ws[..i][..i - 1] == ws[..i - 1];
      assert vs[i - 1] == vs[..i][i - 1] == ws[..i][i - 1] == ws[i - 1];
      OffAgrees(vs, ws, i - 1);
    }
  }

  /** Every record starts at a multiple of four. */
  lemma {:induction false} OffAligned(vs: seq<Str>, i: nat)
    requires i <= |vs|
    ensures Off(vs, i) % 4 == 0
  {
    if i > 0 { OffAligned(vs, i - 1); }
  }

  lemma {:induction false} OffMonotone(vs: seq<Str>, i: nat, j: nat)
    requires i <= j <= |vs|
    ensures Off(vs, i) <= Off(vs, j)
    ensures i < j ==> Off(vs, i) + Padded(|vs[i]|) <= Off(vs, j)
    decreases j
  {
    if i < j { OffMonotone(vs, i, j - 1); }
  }

  /** Every record takes at least eight bytes once its text has two or more. */
  lemma {:induction false} OffAtLeast(vs: seq<Str>, i: nat)
    requires i <= |vs| && forall k | 0 <= k < i :: |vs[k]| >= 1
    ensures Off(vs, i) >= 8 * i
  {
    if i > 0 { OffAtLeast(vs, i - 1); }
  }

  lemma {:induction false} OffConcat(vs: seq<Str>, ws: seq<Str>, i: nat)
    requires i <= |ws|
    ensures Off(vs + ws, |vs| + i) == Size(vs) + Off(ws, i)
  {
    if i == 0 {
      assert (vs + ws)[..|vs|] == vs[..|vs|];
      OffAgrees(vs + ws, vs, |vs|);
    } else {
      OffConcat(vs, ws, i - 1);
      assert (vs + ws)[|vs| + i - 1] == ws[i - 1];
    }
  }

  /** Appending a record moves no earlier one. */
  lemma OffAppend(vs: seq<Str>, v: Str, i: nat)
    requires i <= |vs|
    ensures Off(vs + [v], i) == Off(vs, i)
    ensures Size(vs + [v]) == Size(vs) + Padded(|v|)
  {
    assert (vs + [v])[..i] == vs[..i] && (vs + [v])[..|vs|] == vs[..|vs|];
    OffAgrees(vs + [v], vs, i);
    OffAgrees(vs + [v], vs, |vs|);
  }

  /** A record written after a run extends the run. */
  lemma HoldsAppend(mem: seq<Byte>, base: nat, vs: seq<Str>, v: Str)
    requires HoldsAt(mem, base, vs) && RecordAt(mem, base + Size(vs), v)
    ensures HoldsAt(mem, base, vs + [v])
    ensures Size(vs + [v]) == Size(vs) + Padded(|v|)
  {
    OffAppend(vs, v, 0);
    forall i | 0 <= i < |vs + [v]| ensures HoldsRecord(mem, base, vs + [v], i) {
      OffAppend(vs, v, i);
      if i < |vs| {
        assert HoldsRecord(mem, base, vs, i);
      }
    }
  }

  lemma SliceOfSlice<T>(mem: seq<T>, base: nat, size: nat, lo: nat, hi: nat)
    requires base + size <= |mem| && lo <= hi <= size
    ensures mem[base..base + size][lo..hi] == mem[base + lo..base + hi]
  {
    var a, b := mem[base..base + size][lo..hi], mem[base + lo..base + hi];
    assert |a| == |b|;
    assert forall k | 0 <= k < |a| :: a[k] == b[k];
  }

  /** Two memories that agree on a run's bytes hold the same run. */
  lemma HoldsFrame(mem: seq<Byte>, mem': seq<Byte>, base: nat, base': nat, vs: seq<Str>)
    requires HoldsAt(mem, base, vs)
    requires base + Size(vs) <= |mem| && base' + Size(vs) <= |mem'|
    requires mem[base..base + Size(vs)] == mem'[base'..base' + Size(vs)]
    ensures HoldsAt(mem', base', vs)
  {
    hide Word32, Off;
    forall i | 0 <= i < |vs| ensures HoldsRecord(mem', base', vs, i) {
      OffMonotone(vs, i, |vs|);
      var o := Off(vs, i);
      assert HoldsRecord(mem, base, vs, i);
      SliceOfSlice(mem, base, Size(vs), o, o + 4);
      SliceOfSlice(mem', base', Size(vs), o, o + 4);
      SliceOfSlice(mem, base, Size(vs), o + 4, o + 4 + |vs[i]|);
      SliceOfSlice(mem', base', Size(vs), o + 4, o + 4 + |vs[i]|);
    }
  }

  /** A prefix of a run is a run, at the same offsets. */
  lemma HoldsPrefix(mem: seq<Byte>, base: nat, vs: seq<Str>, n: nat)
    requires HoldsAt(mem, base, vs) && n <= |vs|
    ensures HoldsAt(mem, base, vs[..n])
    ensures Size(vs[..n]) == Off(vs, n)
  {
    forall i | 0 <= i <= n ensures Off(vs[..n], i) == Off(vs, i) {
      assert vs[..n][..i] == vs[..i];
      OffAgrees(vs[..n], vs, i);
    }
    forall i | 0 <= i < n ensures HoldsRecord(mem, base, vs[..n], i) {
      assert HoldsRecord(mem, base, vs, i);
    }
  }

  lemma HoldsConcat(mem: seq<Byte>, base: nat, vs: seq<Str>, ws: seq<Str>)
    requires HoldsAt(mem, base, vs) && HoldsAt(mem, base + Size(vs), ws)
    ensures HoldsAt(mem, base, vs + ws)
    ensures Size(vs + ws) == Size(vs) + Size(ws)
  {
    OffConcat(vs, ws, |ws|);
    forall i | 0 <= i < |vs + ws| ensures HoldsRecord(mem, base, vs + ws, i) {
      if i < |vs| {
        assert (vs + ws)[..i] == vs[..i];
        OffAgrees(vs + ws, vs, i);
        assert HoldsRecord(mem, base, vs, i);
      } else {
        OffConcat(vs, ws, i - |vs|);
        assert HoldsRecord(mem, base + Size(vs), ws, i - |vs|);
      }
    }
  }

  /** Copying the bytes of a run behind those of another appends its records. */
  lemma CopyRun(out: seq<Byte>, done: seq<Str>, mem: seq<Byte>, b: nat, vs: seq<Str>)
    requires |out| == 4 + Size(done) && HoldsAt(out, 4, done)
    requires HoldsAt(mem, b, vs) && b + Size(vs) <= |mem|
    ensures var out' := out + mem[b..b + Size(vs)];
            |out'| == 4 + Size(done + vs) && out'[..4] == out[..4] && HoldsAt(out', 4, done + vs)
  {
    var part := mem[b..b + Size(vs)];
    var out' := out + part;
    assert out'[4..4 + Size(done)] == out[4..4 + Size(done)];
    HoldsFrame(out, out', 4, 4, done);
    assert out'[|out|..|out| + Size(vs)] == part;
    HoldsFrame(mem, out', b, |out|, vs);
    HoldsConcat(out', 4, done, vs);
  }

  /** All shards' records, shard after shard: the order in which a snapshot lists them. */
  function Flatten(shards: seq<seq<Str>>): (vs: seq<Str>) {
    if shards == [] then [] else Flatten(shards[..|shards| - 1]) + shards[|shards| - 1]
  }

  /** `bytes`: the shard count, then the committed records of every shard with no gaps between shards. */
  ghost predicate IsSnapshot(bytes: seq<Byte>, shards: seq<seq<Str>>) {
    && |shards| < U32_SIZE
    && |bytes| == 4 + Size(Flatten(shards))
    && Word32(bytes[..4]) == |shards|
    && HoldsAt(bytes, 4, Flatten(shards))
  }

  /**
    The texts that `from_bytes` (`checked`) or `from_bytes_unchecked` hands to
    `insert_unique` when its cursor stands at `pos`.
   */
  function Texts(bytes: seq<Byte>, pos: nat, checked: bool): (vs: seq<Str>)
    decreases |bytes| - pos
  {
    if pos + 4 > |bytes| then [] else
    var len := Word32(bytes[pos..pos + 4]);
    if pos + 4 + len > |bytes| then [] else
    var text := bytes[pos + 4..pos + 4 + len];
    (if !checked || ValidUtf8(text) then [text] else [])
    + Texts(bytes, pos + Padded(len), checked)
  }

  /** No whole record stands at `end`. */
  ghost predicate RunEnds(bytes: seq<Byte>, end: nat) {
    && end <= |bytes|
    && (|bytes| < end + 4 || end + 4 + Word32(bytes[end..end + 4]) > |bytes|)
  }

  /** Reading back a run of records yields exactly the records, whatever the padding holds. */
  lemma {:induction false} TextsOfRun(bytes: seq<Byte>, base: nat, vs: seq<Str>, i: nat, checked: bool)
    requires HoldsAt(bytes, base, vs) && i <= |vs| && RunEnds(bytes, base + Size(vs))
    requires checked ==> forall k | 0 <= k < |vs| :: ValidUtf8(vs[k])
    ensures Texts(bytes, base + Off(vs, i), checked) == vs[i..]
    decreases |vs| - i
  {
    hide Word32, Padded, ValidUtf8;
    var pos := base + Off(vs, i);
    if i < |vs| {
      assert HoldsRecord(bytes, base, vs, i);
      TextsOfRun(bytes, base, vs, i + 1, checked);
      assert vs[i..] == [vs[i]] + vs[i + 1..];
    }
  }
}
