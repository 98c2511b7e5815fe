/**
  Two laws of the merge: it treats the two logs alike, and applying its winners
  leaves nothing to merge but the conflicts.
 */
module MergeLaws {
  import opened Bytes
  import opened MergeSpec

  // ----- symmetry

  function MirrorAction(a: Action): Action {
    match a
    case ApplyFromPostgres => ApplyFromSQLite
    case ApplyFromSQLite => ApplyFromPostgres
    case Conflict => Conflict
  }

  function Mirror(t: Truth): Truth { Truth(t.sqlite, t.postgres, MirrorAction(t.action)) }

  function MirrorAll(ts: seq<Truth>): seq<Truth> {
    seq(|ts|, i requires 0 <= i < |ts| => Mirror(ts[i]))
  }

  /** Swapping the logs gives the same keys in the same order, with mirrored entries and actions. */
  lemma {:induction false} MergeSymmetric(pg: Log, sq: Log)
    ensures Merge(sq, pg) == MirrorAll(Merge(pg, sq))
    decreases |pg| + |sq|
  {
    if pg != [] || sq != [] {
      var p, s := TakesPg(pg, sq), TakesSq(pg, sq);
      if pg != [] && sq != [] { KeyOrder(pg[0].key, sq[0].key); }
      MergeSymmetric(Rest(pg, p), Rest(sq, s));
      var v := Verdict(Head(pg, p), Head(sq, s));
      var w := Verdict(Head(sq, s), Head(pg, p));
      assert v.Some? <==> w.Some?;
      assert v.Some? ==> w.value == Mirror(v.value);
    }
  }

  // ----- fixpoint

  /** Writing one entry into an ordered log. */
  function Upsert(log: Log, e: Entry): Log {
    if log == [] then [e]
    else if log[0].key == e.key then [e] + log[1..]
    else if KeyLess(e.key, log[0].key) then [e] + log
    else [log[0]] + Upsert(log[1..], e)
  }

  lemma {:induction false} UpsertLookup(log: Log, e: Entry, k: Key)
    ensures Lookup(Upsert(log, e), k) == if k == e.key then Some(e) else Lookup(log, k)
  {
    if log != [] && log[0].key != e.key && !KeyLess(e.key, log[0].key) { UpsertLookup(log[1..], e, k); }
  }

  lemma {:induction false} UpsertAbove(log: Log, e: Entry, k: Key)
    requires AllAbove(log, k) && KeyLess(k, e.key)
    ensures AllAbove(Upsert(log, e), k)
  {
    if log != [] && log[0].key != e.key && !KeyLess(e.key, log[0].key) { UpsertAbove(log[1..], e, k); }
  }

  lemma {:induction false} UpsertAscending(log: Log, e: Entry)
    requires Ascending(log)
    ensures Ascending(Upsert(log, e))
  {
    if log == [] || log[0].key == e.key {
    } else if KeyLess(e.key, log[0].key) {
      AboveFront(log, e.key);
    } else {
      KeyOrder(e.key, log[0].key);
      UpsertAscending(log[1..], e);
      UpsertAbove(log[1..], e, log[0].key);
    }
  }

  /** Applying, in order, every winner that comes from the given side. */
  function Apply(log: Log, ts: seq<Truth>, from: Action): Log
    decreases |ts|
  {
    if ts == [] then log else
    var next := if ts[0].action == from && ts[0].Winner().Some? then Upsert(log, ts[0].Winner().value) else log;
    Apply(next, ts[1..], from)
  }

  /** Both entries of a result, and so its winner, are about its key. */
  ghost predicate Coherent(ts: seq<Truth>) {
    && Ordered(ts)
    && (forall i | 0 <= i < |ts| :: ts[i].postgres.Some? && ts[i].sqlite.Some?
                                    ==> ts[i].postgres.value.key == ts[i].sqlite.value.key)
    && (forall i | 0 <= i < |ts| :: ts[i].action != Conflict ==> ts[i].Winner().Some?)
  }

  lemma {:induction false} OrderedFind(ts: seq<Truth>, i: nat)
    requires Ordered(ts) && i < |ts|
    ensures Find(ts, ts[i].Key()) == Some(ts[i])
  {
    if i > 0 {
      KeyOrder(ts[0].Key(), ts[i].Key());
      OrderedFind(ts[1..], i - 1);
    }
  }

  lemma ResultCoherent(pg: Log, sq: Log, i: nat)
    requires Ascending(pg) && Ascending(sq) && i < |Merge(pg, sq)|
    ensures var t := Merge(pg, sq)[i];
            && (t.postgres.Some? || t.sqlite.Some?)
            && (t.postgres.Some? && t.sqlite.Some? ==> t.postgres.value.key == t.sqlite.value.key)
            && (t.action != Conflict ==> t.Winner().Some?)
  {
    hide Merge, Find, KeyLess;
    MergeIsJoin(pg, sq, Key([], []));
    OrderedFind(Merge(pg, sq), i);
    MergeIsJoin(pg, sq, Merge(pg, sq)[i].Key());
  }

  lemma MergeCoherent(pg: Log, sq: Log)
    requires Ascending(pg) && Ascending(sq)
    ensures Coherent(Merge(pg, sq))
  {
    hide Merge, Ascending, KeyLess;
    MergeIsJoin(pg, sq, Key([], []));
    forall i | 0 <= i < |Merge(pg, sq)|
      ensures var t := Merge(pg, sq)[i];
              && (t.postgres.Some? && t.sqlite.Some? ==> t.postgres.value.key == t.sqlite.value.key)
              && (t.action != Conflict ==> t.Winner().Some?)
    {
      ResultCoherent(pg, sq, i);
    }
  }

  lemma OrderedTail(ts: seq<Truth>)
    requires Ordered(ts) && ts != []
    ensures Ordered(ts[1..]) && Find(ts[1..], ts[0].Key()) == None
  {
    FindAbove(ts[1..], ts[0].Key());
  }

  lemma {:induction false} ApplyLookup(log: Log, ts: seq<Truth>, from: Action, k: Key)
    requires Ascending(log) && Coherent(ts) && from != Conflict
    ensures Ascending(Apply(log, ts, from))
    ensures Lookup(Apply(log, ts, from), k)
         == if Find(ts, k).Some? && Find(ts, k).value.action == from then Find(ts, k).value.Winner() else Lookup(log, k)
    decreases |ts|
  {
    if ts != [] {
      var log' := log;
      OrderedTail(ts);
      if ts[0].action == from {
        var e := ts[0].Winner().value;
        log' := Upsert(log, e);
        UpsertAscending(log, e);
        UpsertLookup(log, e, k);
      }
      ApplyLookup(log', ts[1..], from, k);
    }
  }

  function Conflicts(ts: seq<Truth>): seq<Truth> {
    if ts == [] then [] else (if ts[0].action == Conflict then [ts[0]] else []) + Conflicts(ts[1..])
  }

  lemma {:induction false} ConflictsAbove(ts: seq<Truth>, k: Key)
    requires ResultsAbove(ts, k)
    ensures ResultsAbove(Conflicts(ts), k)
  {
    if ts != [] { ConflictsAbove(ts[1..], k); }
  }

  lemma AboveRest(ts: seq<Truth>)
    requires Ordered(ts) && ts != []
    ensures ts[0].postgres.Some? || ts[0].sqlite.Some?
    ensures Ordered(ts[1..]) && ResultsAbove(ts[1..], ts[0].Key())
  {
  }

  lemma PrependOrdered(t: Truth, ts: seq<Truth>)
    requires Ordered(ts) && (t.postgres.Some? || t.sqlite.Some?) && ResultsAbove(ts, t.Key())
    ensures Ordered([t] + ts)
  {
  }

  lemma {:induction false} ConflictsOrdered(ts: seq<Truth>)
    requires Ordered(ts)
    ensures Ordered(Conflicts(ts))
  {
    hide Ordered, ResultsAbove;
    if ts != [] {
      AboveRest(ts);
      ConflictsOrdered(ts[1..]);
      ConflictsAbove(ts[1..], ts[0].Key());
      if ts[0].action == Conflict {
        PrependOrdered(ts[0], Conflicts(ts[1..]));
      } else {
        assert Conflicts(ts) == Conflicts(ts[1..]);
      }
    }
  }

  lemma {:induction false} ConflictsFind(ts: seq<Truth>, k: Key)
    requires Ordered(ts)
    ensures Find(Conflicts(ts), k)
         == if Find(ts, k).Some? && Find(ts, k).value.action == Conflict then Find(ts, k) else None
  {
    hide KeyLess, ResultsAbove;
    if ts != [] {
      AboveRest(ts);
      var first, rest := ts[0], Conflicts(ts[1..]);
      ConflictsFind(ts[1..], k);
      ConflictsAbove(ts[1..], first.Key());
      FindAbove(rest, first.Key());
      FindAbove(ts[1..], first.Key());
      if first.action == Conflict {
        assert Conflicts(ts) == [first] + rest && Conflicts(ts)[1..] == rest;
      } else {
        assert Conflicts(ts) == rest;
      }
    }
  }

  /** A result list is determined by its answers. */
  lemma {:induction false} OrderedUnique(a: seq<Truth>, b: seq<Truth>)
    requires Ordered(a) && Ordered(b) && forall k :: Find(a, k) == Find(b, k)
    ensures a == b
  {
    if a == [] {
      if b != [] { OrderedFind(b, 0); }
    } else if b == [] {
      OrderedFind(a, 0);
    } else {
      var k, l := a[0].Key(), b[0].Key();
      assert Find(a, k) == Some(a[0]) && Find(b, l) == Some(b[0]);
      KeyOrder(k, l);
      if KeyLess(k, l) { FirstAbove(b, k); }
      if KeyLess(l, k) { FirstAbove(a, l); }
      OrderedTail(a);
      OrderedTail(b);
      forall m ensures Find(a[1..], m) == Find(b[1..], m) {
        assert Find(a, m) == Find(b, m);
      }
      OrderedUnique(a[1..], b[1..]);
    }
  }

  lemma FirstAbove(ts: seq<Truth>, k: Key)
    requires Ordered(ts) && ts != [] && KeyLess(k, ts[0].Key())
    ensures Find(ts, k) == None
  {
    forall i | 0 <= i < |ts| ensures KeyLess(k, ts[i].Key()) {
      if i > 0 { KeyTransitive(k, ts[0].Key(), ts[i].Key()); }
    }
    FindAbove(ts, k);
  }

  /**
    Once every winning entry has been copied to the losing log, a second merge
    reports exactly the conflicts of the first.
   */
  lemma SyncFixpoint(pg: Log, sq: Log)
    requires Ascending(pg) && Ascending(sq)
    ensures var ts := Merge(pg, sq);
            Merge(Apply(pg, ts, ApplyFromSQLite), Apply(sq, ts, ApplyFromPostgres)) == Conflicts(ts)
  {
    hide Merge, Apply, Conflicts, Find;
    var ts := Merge(pg, sq);
    var pg', sq' := Apply(pg, ts, ApplyFromSQLite), Apply(sq, ts, ApplyFromPostgres);
    var any := Key([], []);
    FixpointAt(pg, sq, any);
    MergeIsJoin(pg', sq', any);
    ConflictsOrdered(ts);
    forall k ensures Find(Merge(pg', sq'), k) == Find(Conflicts(ts), k) {
      FixpointAt(pg, sq, k);
    }
    OrderedUnique(Merge(pg', sq'), Conflicts(ts));
  }

  /** The fixpoint at one key. */
  lemma FixpointAt(pg: Log, sq: Log, k: Key)
    requires Ascending(pg) && Ascending(sq)
    ensures var ts := Merge(pg, sq);
            var pg', sq' := Apply(pg, ts, ApplyFromSQLite), Apply(sq, ts, ApplyFromPostgres);
            && Ascending(pg') && Ascending(sq') && Ordered(ts)
            && Find(Merge(pg', sq'), k) == Find(Conflicts(ts), k)
  {
    hide Merge, Apply, Conflicts, Find, Ascending, Ordered;
    var ts := Merge(pg, sq);
    var pg', sq' := Apply(pg, ts, ApplyFromSQLite), Apply(sq, ts, ApplyFromPostgres);
    MergeCoherent(pg, sq);
    MergeIsJoin(pg, sq, k);
    ApplyLookup(pg, ts, ApplyFromSQLite, k);
    ApplyLookup(sq, ts, ApplyFromPostgres, k);
    MergeIsJoin(pg', sq', k);
    ConflictsFind(ts, k);
  }
}
