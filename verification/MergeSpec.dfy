/**
  The merge of two sync logs as a function, and what it computes: the full outer
  join of the logs by key, without the records on which both sides agree.
 */
module MergeSpec {
  import opened Bytes

  /** Byte-wise string order (`str::cmp`, `COLLATE "C"`, `COLLATE BINARY`). */
  predicate StrLess(a: Str, b: Str) {
    if b == [] then false
    else if a == [] then true
    else a[0] < b[0] || (a[0] == b[0] && StrLess(a[1..], b[1..]))
  }

  /** Strings in the order of their bytes: at the first difference one has the smaller byte or has ended. */
  ghost predicate ByteLess(a: Str, b: Str) { exists k: nat :: FirstDifference(a, b, k) }

  ghost predicate FirstDifference(a: Str, b: Str, k: nat) {
    k <= |a| && k < |b| && a[..k] == b[..k] && (k == |a| || a[k] < b[k])
  }

  /** The order that the merge compares by is the order of the bytes. */
  lemma {:induction false} StrLessIff(a: Str, b: Str)
    ensures StrLess(a, b) <==> ByteLess(a, b)
  {
    if a == [] || b == [] {
      if b != [] { assert FirstDifference(a, b, 0); }
    } else {
      StrLessIff(a[1..], b[1..]);
      if k: nat :| FirstDifference(a, b, k) && k > 0 {
        assert a[0] == a[..k][0] == b[..k][0] == b[0];
        assert a[1..][..k - 1] == a[..k][1..] && b[1..][..k - 1] == b[..k][1..];
        assert FirstDifference(a[1..], b[1..], k - 1);
      }
      if StrLess(a, b) {
        if a[0] < b[0] {
          assert FirstDifference(a, b, 0);
        } else {
          var k: nat :| FirstDifference(a[1..], b[1..], k);
          assert a[..k + 1] == [a[0]] + a[1..][..k] && b[..k + 1] == [b[0]] + b[1..][..k];
          assert FirstDifference(a, b, k + 1);
        }
      }
    }
  }

  /** The merge key: table name, then record id. */
  datatype Key = Key(table: Str, record: Str)

  predicate KeyLess(a: Key, b: Key) {
    StrLess(a.table, b.table) || (a.table == b.table && StrLess(a.record, b.record))
  }

  lemma {:induction false} StrOrder(a: Str, b: Str)
    ensures !StrLess(a, a)
    ensures StrLess(a, b) || StrLess(b, a) || a == b
    ensures !(StrLess(a, b) && StrLess(b, a))
  {
    if a != [] {
      StrOrder(a[1..], if b == [] then [] else b[1..]);
      if b != [] { assert a == [a[0]] + a[1..] && b == [b[0]] + b[1..]; }
    }
  }

  lemma {:induction false} StrTransitive(a: Str, b: Str, c: Str)
    requires StrLess(a, b) && StrLess(b, c)
    ensures StrLess(a, c)
  {
    if a != [] && a[0] == b[0] == c[0] { StrTransitive(a[1..], b[1..], c[1..]); }
  }

  /** Keys are strictly and totally ordered. */
  lemma KeyOrder(a: Key, b: Key)
    ensures !KeyLess(a, a)
    ensures KeyLess(a, b) || KeyLess(b, a) || a == b
    ensures !(KeyLess(a, b) && KeyLess(b, a))
  {
    StrOrder(a.table, b.table);
    StrOrder(a.record, b.record);
  }

  lemma KeyTransitive(a: Key, b: Key, c: Key)
    requires KeyLess(a, b) && KeyLess(b, c)
    ensures KeyLess(a, c)
  {
    if StrLess(a.table, b.table) && StrLess(b.table, c.table) { StrTransitive(a.table, b.table, c.table); }
    if StrLess(a.record, b.record) && StrLess(b.record, c.record) { StrTransitive(a.record, b.record, c.record); }
  }

  datatype Op = Insert | Update | Delete

  /** A log entry; `key` stands for the table and record that identify it. */
  datatype Entry = Entry(key: Key, op: Op, version: int, updatedAt: int)

  datatype Action = ApplyFromPostgres | ApplyFromSQLite | Conflict

  datatype Truth = Truth(postgres: Option<Entry>, sqlite: Option<Entry>, action: Action) {
    /** The record that a merge result is about. */
    function Key(): Key
      requires postgres.Some? || sqlite.Some?
    {
      if postgres.Some? then postgres.value.key else sqlite.value.key
    }

    /** `winning_entry`. */
    function Winner(): Option<Entry> {
      match action
      case Conflict => None
      case ApplyFromPostgres => postgres
      case ApplyFromSQLite => sqlite
    }
  }

  type Log = seq<Entry>

  ghost predicate Ascending(log: Log) {
    forall i, j | 0 <= i < j < |log| :: KeyLess(log[i].key, log[j].key)
  }

  /** More changes win, then the later change. */
  predicate Newer(a: Entry, b: Entry) {
    a.version > b.version || (a.version == b.version && a.updatedAt > b.updatedAt)
  }

  /**
    The policy for one record, given what each log holds for it: the only side or
    the newer side wins, equal stamps agree on the same operation and conflict on
    different ones.
   */
  function Verdict(p: Option<Entry>, s: Option<Entry>): Option<Truth> {
    match (p, s)
    case (None, None) => None
    case (Some(_), None) => Some(Truth(p, s, ApplyFromPostgres))
    case (None, Some(_)) => Some(Truth(p, s, ApplyFromSQLite))
    case (Some(a), Some(b)) =>
      if Newer(a, b) then Some(Truth(p, s, ApplyFromPostgres))
      else if Newer(b, a) then Some(Truth(p, s, ApplyFromSQLite))
      else if a.op == b.op then None
      else Some(Truth(p, s, Conflict))
  }

  /** The stamp of `a` is not below that of `b`, and is not the same. */
  ghost predicate Beats(a: Entry, b: Entry) {
    a.version >= b.version && (a.version == b.version ==> a.updatedAt > b.updatedAt)
  }

  /** What a verdict says about the two sides; there is none exactly if neither or both say the same. */
  lemma VerdictMeans(p: Option<Entry>, s: Option<Entry>)
    ensures match Verdict(p, s)
            case None =>
              p.Some? == s.Some? && (p.Some? ==> p.value.version == s.value.version
                                                 && p.value.updatedAt == s.value.updatedAt && p.value.op == s.value.op)
            case Some(t) =>
              && t.postgres == p && t.sqlite == s
              && match t.action
                 case ApplyFromPostgres => p.Some? && (s.Some? ==> Beats(p.value, s.value))
                 case ApplyFromSQLite => s.Some? && (p.Some? ==> Beats(s.value, p.value))
                 case Conflict =>
                   p.Some? && s.Some? && p.value.version == s.value.version
                   && p.value.updatedAt == s.value.updatedAt && p.value.op != s.value.op
  {
  }

  /** Whether the next key comes from the Postgres log, the SQLite log, or both. */
  predicate TakesPg(pg: Log, sq: Log) {
    pg != [] && (sq == [] || !KeyLess(sq[0].key, pg[0].key))
  }

  predicate TakesSq(pg: Log, sq: Log) {
    sq != [] && (pg == [] || !KeyLess(pg[0].key, sq[0].key))
  }

  function Head(log: Log, taken: bool): Option<Entry>
    requires taken ==> log != []
  {
    if taken then Some(log[0]) else None
  }

  function Rest(log: Log, taken: bool): Log
    requires taken ==> log != []
  {
    if taken then log[1..] else log
  }

  /** The streaming merge: consume the smaller key, or both sides of an equal one. */
  function Merge(pg: Log, sq: Log): seq<Truth>
    decreases |pg| + |sq|
  {
    if pg == [] && sq == [] then [] else
    KeyOrder(if pg == [] then sq[0].key else pg[0].key, if sq == [] then pg[0].key else sq[0].key);
    var p, s := TakesPg(pg, sq), TakesSq(pg, sq);
    var rest := Merge(Rest(pg, p), Rest(sq, s));
    match Verdict(Head(pg, p), Head(sq, s))
    case None => rest
    case Some(t) => [t] + rest
  }

  lemma MergeUnfold(pg: Log, sq: Log)
    requires pg != [] || sq != []
    ensures TakesPg(pg, sq) || TakesSq(pg, sq)
    ensures var p, s := TakesPg(pg, sq), TakesSq(pg, sq);
            Merge(pg, sq) == match Verdict(Head(pg, p), Head(sq, s))
                             case None => Merge(Rest(pg, p), Rest(sq, s))
                             case Some(t) => [t] + Merge(Rest(pg, p), Rest(sq, s))
  {
    if pg != [] && sq != [] { KeyOrder(pg[0].key, sq[0].key); }
  }

  /** The entry that a log holds for `k`. */
  function Lookup(log: Log, k: Key): (r: Option<Entry>)
    ensures r.Some? ==> r.value in log && r.value.key == k
  {
    if log == [] then None else if log[0].key == k then Some(log[0]) else Lookup(log[1..], k)
  }

  /** The merge result about `k`. */
  function Find(ts: seq<Truth>, k: Key): (r: Option<Truth>)
    ensures r.Some? ==> r.value in ts
  {
    if ts == [] then None
    else if (ts[0].postgres.Some? || ts[0].sqlite.Some?) && ts[0].Key() == k then Some(ts[0])
    else Find(ts[1..], k)
  }

  /** Results in strictly ascending key order: each key at most once. */
  ghost predicate Ordered(ts: seq<Truth>) {
    && (forall i | 0 <= i < |ts| :: ts[i].postgres.Some? || ts[i].sqlite.Some?)
    && (forall i, j | 0 <= i < j < |ts| :: KeyLess(ts[i].Key(), ts[j].Key()))
  }

  // ----- the join

  lemma {:induction false} LookupBelow(log: Log, k: Key)
    requires Ascending(log) && (log == [] || KeyLess(k, log[0].key))
    ensures Lookup(log, k) == None
  {
    if log != [] {
      KeyOrder(k, log[0].key);
      if |log| > 1 {
        KeyTransitive(k, log[0].key, log[1].key);
      }
      LookupBelow(log[1..], k);
    }
  }

  ghost predicate AllAbove(log: Log, k: Key) { forall i | 0 <= i < |log| :: KeyLess(k, log[i].key) }

  ghost predicate ResultsAbove(ts: seq<Truth>, k: Key) {
    forall i | 0 <= i < |ts| :: (ts[i].postgres.Some? || ts[i].sqlite.Some?) && KeyLess(k, ts[i].Key())
  }

  lemma AboveFront(log: Log, k: Key)
    requires Ascending(log) && (log == [] || KeyLess(k, log[0].key))
    ensures AllAbove(log, k)
  {
    forall i | 0 <= i < |log| ensures KeyLess(k, log[i].key) {
      if i > 0 { KeyTransitive(k, log[0].key, log[i].key); }
    }
  }

  /** The key that the merge consumes first. */
  function FirstKey(pg: Log, sq: Log): Key
    requires pg != [] || sq != []
  {
    if TakesPg(pg, sq) then pg[0].key else sq[0].key
  }

  /** Consuming the first key takes exactly the two logs' entries for it and leaves larger keys. */
  lemma FirstStep(pg: Log, sq: Log)
    requires Ascending(pg) && Ascending(sq) && (pg != [] || sq != [])
    ensures var k, p, s := FirstKey(pg, sq), TakesPg(pg, sq), TakesSq(pg, sq);
            && (p || s)
            && Head(pg, p) == Lookup(pg, k) && Head(sq, s) == Lookup(sq, k)
            && Ascending(Rest(pg, p)) && Ascending(Rest(sq, s))
            && AllAbove(Rest(pg, p), k) && AllAbove(Rest(sq, s), k)
            && Merge(pg, sq) == match Verdict(Lookup(pg, k), Lookup(sq, k))
                                case None => Merge(Rest(pg, p), Rest(sq, s))
                                case Some(t) => [t] + Merge(Rest(pg, p), Rest(sq, s))
  {
    var k, p, s := FirstKey(pg, sq), TakesPg(pg, sq), TakesSq(pg, sq);
    if pg != [] && sq != [] { KeyOrder(pg[0].key, sq[0].key); }
    if p { AboveFront(pg[1..], k); } else { AboveFront(pg, k); LookupBelow(pg, k); }
    if s { AboveFront(sq[1..], k); } else { AboveFront(sq, k); LookupBelow(sq, k); }
  }

  lemma {:induction false} MergeAbove(pg: Log, sq: Log, k: Key)
    requires Ascending(pg) && Ascending(sq) && AllAbove(pg, k) && AllAbove(sq, k)
    ensures ResultsAbove(Merge(pg, sq), k)
    decreases |pg| + |sq|
  {
    hide KeyLess, Ascending, Newer;
    if pg != [] || sq != [] {
      FirstStep(pg, sq);
      MergeAbove(Rest(pg, TakesPg(pg, sq)), Rest(sq, TakesSq(pg, sq)), k);
    }
  }

  lemma {:induction false} FindAbove(ts: seq<Truth>, k: Key)
    requires ResultsAbove(ts, k)
    ensures Find(ts, k) == None
  {
    if ts != [] {
      KeyOrder(k, ts[0].Key());
      FindAbove(ts[1..], k);
    }
  }

  /**
    The merge of two ascending logs is their full outer join: results come in key
    order, each key at most once, and for every key the result is the policy's
    verdict on what the two logs hold for it.
   */
  lemma {:induction false} MergeIsJoin(pg: Log, sq: Log, k: Key)
    requires Ascending(pg) && Ascending(sq)
    ensures Ordered(Merge(pg, sq))
    ensures Find(Merge(pg, sq), k) == Verdict(Lookup(pg, k), Lookup(sq, k))
    decreases |pg| + |sq|
  {
    hide Merge, KeyLess, Ascending, Verdict, FirstKey, Rest, Head, Lookup;
    if pg == [] && sq == [] {
      MergeNothing(k);
    } else {
      FirstStep(pg, sq);
      var first, p, s := FirstKey(pg, sq), TakesPg(pg, sq), TakesSq(pg, sq);
      RestShorter(pg, sq);
      MergeIsJoin(Rest(pg, p), Rest(sq, s), k);
      MergeAbove(Rest(pg, p), Rest(sq, s), first);
      LookupRest(pg, sq, k);
      var v := Verdict(Lookup(pg, first), Lookup(sq, first));
      NoVerdict();
      if v.Some? {
        VerdictKey(Lookup(pg, first), Lookup(sq, first), first);
        FindFront(v.value, Merge(Rest(pg, p), Rest(sq, s)), first, k);
      } else if k == first {
        FindAbove(Merge(Rest(pg, p), Rest(sq, s)), first);
      }
    }
  }

  lemma MergeNothing(k: Key)
    ensures Merge([], []) == [] && Verdict(Lookup([], k), Lookup([], k)) == None && Find([], k) == None
  {
  }

  lemma NoVerdict()
    ensures Verdict(None, None) == None
  {
  }

  lemma RestShorter(pg: Log, sq: Log)
    requires TakesPg(pg, sq) || TakesSq(pg, sq)
    ensures |Rest(pg, TakesPg(pg, sq))| + |Rest(sq, TakesSq(pg, sq))| < |pg| + |sq|
  {
  }

  /** A verdict is about the record it was asked for. */
  lemma VerdictKey(p: Option<Entry>, s: Option<Entry>, k: Key)
    requires (p.Some? ==> p.value.key == k) && (s.Some? ==> s.value.key == k) && Verdict(p, s).Some?
    ensures var t := Verdict(p, s).value; (t.postgres.Some? || t.sqlite.Some?) && t.Key() == k
  {
  }

  /** A result in front of later ones is the one found for its key. */
  lemma FindFront(t: Truth, rest: seq<Truth>, first: Key, k: Key)
    requires Ordered(rest) && ResultsAbove(rest, first) && (t.postgres.Some? || t.sqlite.Some?) && t.Key() == first
    ensures Ordered([t] + rest) && Find([t] + rest, k) == if k == first then Some(t) else Find(rest, k)
  {
    hide KeyLess;
    assert ([t] + rest)[1..] == rest;
  }

  /** After the first step, the logs hold for other keys what they held, and nothing for the first key. */
  lemma LookupRest(pg: Log, sq: Log, k: Key)
    requires Ascending(pg) && Ascending(sq) && (pg != [] || sq != [])
    ensures var first, p, s := FirstKey(pg, sq), TakesPg(pg, sq), TakesSq(pg, sq);
            && (k == first ==> Lookup(Rest(pg, p), k) == None && Lookup(Rest(sq, s), k) == None)
            && (k != first ==> Lookup(Rest(pg, p), k) == Lookup(pg, k) && Lookup(Rest(sq, s), k) == Lookup(sq, k))
  {
    hide Merge, Verdict;
    FirstStep(pg, sq);
    hide Ascending, KeyLess;
    var p, s := TakesPg(pg, sq), TakesSq(pg, sq);
    if k == FirstKey(pg, sq) {
      NoneAbove(Rest(pg, p), k);
      NoneAbove(Rest(sq, s), k);
    }
  }

  lemma {:induction false} NoneAbove(log: Log, k: Key)
    requires AllAbove(log, k)
    ensures Lookup(log, k) == None
  {
    if log != [] {
      KeyOrder(k, log[0].key);
      NoneAbove(log[1..], k);
    }
  }

  // ----- entries by their keys

  lemma {:induction false} LookupIff(log: Log, k: Key)
    ensures Lookup(log, k).Some? <==> exists i :: 0 <= i < |log| && log[i].key == k
  {
    if log != [] {
      LookupIff(log[1..], k);
      if i :| 0 <= i < |log| && log[i].key == k && i > 0 { assert log[1..][i - 1].key == k; }
      if i :| 0 <= i < |log[1..]| && log[1..][i].key == k { assert log[i + 1].key == k; }
    }
  }

  lemma {:induction false} LookupAt(log: Log, i: nat)
    requires Ascending(log) && i < |log|
    ensures Lookup(log, log[i].key) == Some(log[i])
  {
    if i > 0 {
      KeyOrder(log[0].key, log[i].key);
      LookupAt(log[1..], i - 1);
    }
  }

  lemma {:induction false} FindAt(ts: seq<Truth>, i: nat)
    requires Ordered(ts) && i < |ts|
    ensures Find(ts, ts[i].Key()) == Some(ts[i])
  {
    if i > 0 {
      KeyOrder(ts[0].Key(), ts[i].Key());
      assert Ordered(ts[1..]);
      FindAt(ts[1..], i - 1);
    }
  }
}
