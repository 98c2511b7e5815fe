/**
  The foreign-key pool without the keys that lead nowhere, and the ranges of
  columns and tables rewritten to point into it.
 */
module Compaction {
  import opened Bytes
  import opened SchemaTypes
  import opened SchemaRows
  import opened Resolution

  /** A declared key as it appears in the schema; `place` maps old table indices to new ones. */
  function FinalFk(raw: Raw, place: seq<nat>, fk: RawForeignKey): Option<ForeignKey>
    requires |place| == |raw.tables|
  {
    match TargetOf(raw.tables, raw.columnNames, fk.refTable, fk.refColumn)
    case None => None
    case Some(t) =>
      Some(ForeignKey(fk.constraintName, fk.namespace, place[t.table], t.column, fk.onUpdate, fk.onDelete))
  }

  /** The keys that lead somewhere, in declaration order. */
  function FinalFks(raw: Raw, place: seq<nat>, fks: seq<RawForeignKey>): seq<ForeignKey>
    requires |place| == |raw.tables|
  {
    if fks == [] then []
    else FinalFks(raw, place, fks[..|fks| - 1])
         + match FinalFk(raw, place, fks[|fks| - 1]) case None => [] case Some(fk) => [fk]
  }

  lemma {:induction false} FinalConcat(raw: Raw, place: seq<nat>, a: seq<RawForeignKey>, b: seq<RawForeignKey>)
    requires |place| == |raw.tables|
    ensures FinalFks(raw, place, a + b) == FinalFks(raw, place, a) + FinalFks(raw, place, b)
  {
    if b == [] {
      assert a + b == a;
    } else {
      var n := |b| - 1;
      assert (a + b)[..|a + b| - 1] == a + b[..n];
      FinalConcat(raw, place, a, b[..n]);
    }
  }

  /** How many of the first `p` declared keys lead somewhere: the new position of key `p`. */
  function Rank(raw: Raw, p: nat): nat
    requires p <= |raw.unresolved|
  {
    |ResolveAll(raw, raw.unresolved[..p])|
  }

  lemma RankStep(raw: Raw, p: nat)
    requires p < |raw.unresolved|
    ensures Rank(raw, p + 1) == Rank(raw, p) + if ResolveOne(raw, raw.unresolved[p]).Some? then 1 else 0
  {
    assert raw.unresolved[..p + 1][..p] == raw.unresolved[..p];
  }

  lemma {:induction false} RankMonotone(raw: Raw, p: nat, q: nat)
    requires p <= q <= |raw.unresolved|
    ensures Rank(raw, p) <= Rank(raw, q)
  {
    hide Rank, ResolveOne;
    if p < q {
      RankMonotone(raw, p, q - 1);
      RankStep(raw, q - 1);
    }
  }

  /** A key that leads somewhere is found at its rank. */
  lemma {:induction false} RankEntry(raw: Raw, p: nat, m: nat)
    requires p < m <= |raw.unresolved| && ResolveOne(raw, raw.unresolved[p]).Some?
    ensures Rank(raw, p) < Rank(raw, m)
    ensures ResolveAll(raw, raw.unresolved[..m])[Rank(raw, p)] == ResolveOne(raw, raw.unresolved[p]).value
    decreases m
  {
    assert raw.unresolved[..m][..m - 1] == raw.unresolved[..m - 1];
    if p < m - 1 { RankEntry(raw, p, m - 1); }
  }

  /** Every resolved key stems from the declared key of its pool index. */
  lemma {:induction false} EntryRank(raw: Raw, j: nat, m: nat) returns (p: nat)
    requires m <= |raw.unresolved| && j < Rank(raw, m)
    requires forall q | 0 <= q < |raw.unresolved| :: raw.unresolved[q].poolIndex == q
    ensures p < m && Rank(raw, p) == j
    ensures ResolveOne(raw, raw.unresolved[p]) == Some(ResolveAll(raw, raw.unresolved[..m])[j])
    ensures ResolveAll(raw, raw.unresolved[..m])[j].poolIndex == p
    decreases m
  {
    assert raw.unresolved[..m][..m - 1] == raw.unresolved[..m - 1];
    if j < Rank(raw, m - 1) {
      p := EntryRank(raw, j, m - 1);
    } else {
      p := m - 1;
    }
  }

  /** The pool entry written for a resolved key. */
  function Written(raw: Raw, place: seq<nat>, r: ResolvedFk): ForeignKey
    requires r.poolIndex < |raw.fkPool| && r.target.table < |place|
  {
    raw.fkPool[r.poolIndex].(table := place[r.target.table], column := r.target.column)
  }

  /** A declared key is kept exactly if it resolves, and what is written for it is its final form. */
  lemma WrittenOne(raw: Raw, rows: seq<Row>, place: seq<nat>, p: nat)
    requires RawOk(raw, rows) && |place| == |raw.tables| && p < |raw.unresolved|
    ensures |raw.unresolved| == |raw.fkPool| == |Declared(rows)|
    ensures match ResolveOne(raw, raw.unresolved[p])
            case None => FinalFk(raw, place, Declared(rows)[p]) == None
            case Some(r) =>
              && r.poolIndex < |raw.fkPool| && r.target.table < |place|
              && FinalFk(raw, place, Declared(rows)[p]) == Some(Written(raw, place, r))
  {
    assert UnresolvedOk(raw.unresolved[p], p, Declared(rows)[p], raw.tables);
    assert raw.fkPool[p] == Blank(Declared(rows)[p]);
  }

  lemma DeclaredCount(raw: Raw, rows: seq<Row>)
    requires RawOk(raw, rows)
    ensures |raw.unresolved| == |raw.fkPool| == |Declared(rows)|
  {
  }

  ghost predicate IsWritten(raw: Raw, place: seq<nat>, r: ResolvedFk, fk: ForeignKey) {
    r.poolIndex < |raw.fkPool| && r.target.table < |place| && fk == Written(raw, place, r)
  }

  /** The written entries are the final forms of the declared keys. */
  lemma {:induction false} WrittenFinal(raw: Raw, rows: seq<Row>, place: seq<nat>, m: nat)
    requires RawOk(raw, rows) && |place| == |raw.tables| && m <= |raw.unresolved|
    ensures |raw.unresolved| == |raw.fkPool| == |Declared(rows)|
    ensures |FinalFks(raw, place, Declared(rows)[..m])| == Rank(raw, m)
    ensures forall j | 0 <= j < Rank(raw, m) ::
              IsWritten(raw, place, ResolveAll(raw, raw.unresolved[..m])[j],
                        FinalFks(raw, place, Declared(rows)[..m])[j])
  {
    hide RawOk, FinalFk, ResolveOne, Written, Declared;
    DeclaredCount(raw, rows);
    if m > 0 {
      var p := m - 1;
      WrittenFinal(raw, rows, place, p);
      assert Declared(rows)[..m][..p] == Declared(rows)[..p] && raw.unresolved[..m][..p] == raw.unresolved[..p];
      WrittenOne(raw, rows, place, p);
    }
  }

  lemma RankCount(raw: Raw)
    ensures Rank(raw, |raw.unresolved|) == |ResolveAll(raw, raw.unresolved)|
  {
    assert raw.unresolved[..|raw.unresolved|] == raw.unresolved;
  }

  /** The compaction loop: the new pool, and the new position of every key that is kept. */
  method CompactPool(raw: Raw, ghost rows: seq<Row>, resolved: seq<ResolvedFk>, place: seq<nat>)
    returns (pool: seq<ForeignKey>, position: array<Option<nat>>)
    requires RawOk(raw, rows) && resolved == ResolveAll(raw, raw.unresolved) && |place| == |raw.tables|
    ensures pool == FinalFks(raw, place, Declared(rows))
    ensures fresh(position) && PositionsOk(raw, position[..], |resolved|)
  {
    hide RawOk, ResolveAll, ResolveOne, FinalFks, Declared, Rank;
    DeclaredCount(raw, rows);
    RankCount(raw);
    var n := |raw.unresolved|;
    assert raw.unresolved[..n] == raw.unresolved && Declared(rows)[..n] == Declared(rows);
    WrittenFinal(raw, rows, place, n);
    pool := [];
    position := new Option<nat>[|raw.fkPool|](_ => None);
    PositionsStart(raw, position[..]);
    for i := 0 to |resolved|
      invariant |pool| == i && forall j | 0 <= j < i :: pool[j] == FinalFks(raw, place, Declared(rows))[j]
      invariant PositionsOk(raw, position[..], i)
    {
      var r := resolved[i];
      PoolIndices(raw, rows);
      ghost var p := EntryRank(raw, i, n);
      assert IsWritten(raw, place, r, FinalFks(raw, place, Declared(rows))[i]);
      pool := pool + [Written(raw, place, r)];
      PositionsStep(raw, position[..], i, p);
      ghost var before := position[..];
      position[r.poolIndex] := Some(|pool| - 1);
      assert position[..] == before[p := Some(i)];
    }
    assert pool == FinalFks(raw, place, Declared(rows));
  }

  lemma PoolIndices(raw: Raw, rows: seq<Row>)
    requires RawOk(raw, rows)
    ensures forall q | 0 <= q < |raw.unresolved| :: raw.unresolved[q].poolIndex == q
  {
    forall q | 0 <= q < |raw.unresolved| ensures raw.unresolved[q].poolIndex == q {
      assert UnresolvedOk(raw.unresolved[q], q, Declared(rows)[q], raw.tables);
    }
  }

  /** Keys of rank below `i` that lead somewhere have their rank as new position, others none. */
  ghost predicate PositionsOk(raw: Raw, position: seq<Option<nat>>, i: nat) {
    && |position| == |raw.unresolved|
    && forall p | 0 <= p < |position| ::
         position[p] == if ResolveOne(raw, raw.unresolved[p]).Some? && Rank(raw, p) < i
                        then Some(Rank(raw, p)) else None
  }

  lemma PositionsStart(raw: Raw, position: seq<Option<nat>>)
    requires |position| == |raw.unresolved| && forall p | 0 <= p < |position| :: position[p] == None
    ensures PositionsOk(raw, position, 0)
  {
  }

  lemma PositionsStep(raw: Raw, position: seq<Option<nat>>, i: nat, p: nat)
    requires PositionsOk(raw, position, i) && p < |raw.unresolved|
    requires ResolveOne(raw, raw.unresolved[p]).Some? && Rank(raw, p) == i
    requires forall q | 0 <= q < |raw.unresolved| :: raw.unresolved[q].poolIndex == q
    ensures PositionsOk(raw, position[p := Some(i)], i + 1)
  {
    var n := |raw.unresolved|;
    forall q | 0 <= q < n && ResolveOne(raw, raw.unresolved[q]).Some? && Rank(raw, q) == i ensures q == p {
      RankEntry(raw, q, n);
      RankEntry(raw, p, n);
    }
  }

  /** The part of the new pool that holds what the old range `a..b` held. */
  function Shrunk(raw: Raw, a: nat, b: nat): PoolRange
    requires a <= b <= |raw.unresolved|
  {
    var len := Rank(raw, b) - Rank(raw, a);
    RankMonotone(raw, a, b);
    PoolRange(if len == 0 then 0 else Rank(raw, a), len)
  }

  /** The rewriting loop for one range; the start is marked by `u32::MAX` until the first kept key. */
  method NewRange(raw: Raw, position: array<Option<nat>>, a: nat, b: nat) returns (r: PoolRange)
    requires a <= b <= |raw.unresolved| < U32_SIZE && PositionsOk(raw, position[..], Rank(raw, |raw.unresolved|))
    ensures r == Shrunk(raw, a, b)
  {
    hide ResolveOne, ResolveAll;
    RankBound(raw, a);
    var newStart, newLen := U32_SIZE - 1, 0;
    for i := a to b
      invariant RankAtMost(raw, a) && newLen == Rank(raw, i) - Rank(raw, a)
      invariant newStart == if newLen == 0 then U32_SIZE - 1 else Rank(raw, a)
    {
      RankStep(raw, i);
      assert position[..][i] == position[i];
      if position[i].Some? {
        if newStart == U32_SIZE - 1 {
          newStart := position[i].value;
        }
        newLen := newLen + 1;
      } else {
        RankKept(raw, i);
      }
    }
    r := PoolRange(if newLen == 0 then 0 else newStart, newLen);
  }

  ghost predicate RankAtMost(raw: Raw, a: nat)
    requires a <= |raw.unresolved|
  {
    Rank(raw, a) <= a
  }

  lemma {:induction false} RankBound(raw: Raw, a: nat)
    requires a <= |raw.unresolved|
    ensures RankAtMost(raw, a)
  {
    if a > 0 {
      RankBound(raw, a - 1);
      RankStep(raw, a - 1);
    }
  }

  lemma RankKept(raw: Raw, i: nat)
    requires i < |raw.unresolved|
    ensures ResolveOne(raw, raw.unresolved[i]).Some? ==> Rank(raw, i) < Rank(raw, |raw.unresolved|)
  {
    RankStep(raw, i);
    RankMonotone(raw, i + 1, |raw.unresolved|);
  }

  /** The shrunk range of the new pool holds exactly the final forms of the keys of the old range. */
  lemma ShrunkSlice(raw: Raw, rows: seq<Row>, place: seq<nat>, a: nat, b: nat)
    requires RawOk(raw, rows) && |place| == |raw.tables| && a <= b <= |raw.unresolved|
    ensures var pool, r := FinalFks(raw, place, Declared(rows)), Shrunk(raw, a, b);
            && r.start + r.len <= |pool|
            && pool[r.start..r.start + r.len] == FinalFks(raw, place, Declared(rows)[a..b])
  {
    hide RawOk, Declared, FinalFks, ResolveAll;
    var fks := Declared(rows);
    WrittenFinal(raw, rows, place, a);
    WrittenFinal(raw, rows, place, b);
    FinalConcat(raw, place, fks[..a], fks[a..b]);
    assert fks[..a] + fks[a..b] == fks[..b];
    FinalConcat(raw, place, fks[..b], fks[b..]);
    assert fks[..b] + fks[b..] == fks;
    RankMonotone(raw, a, b);
  }
}
