/**
  The table order: Kahn's algorithm over the reference graph, and a fallback that
  appends whatever the queue never reached.

  `graph[u]` lists the tables that reference table `u`, once per foreign key.
 */
module TopoSort {

  ghost predicate GraphOk(graph: seq<seq<nat>>) {
    forall u, k | 0 <= u < |graph| && 0 <= k < |graph[u]| :: graph[u][k] < |graph| && graph[u][k] != u
  }

  /** Table `v` references table `u`. */
  ghost predicate References(graph: seq<seq<nat>>, v: nat, u: nat) {
    u < |graph| && v in graph[u]
  }

  function Count(s: seq<nat>, v: nat): nat { multiset(s)[v] }

  /** References from `v` to the first `m` tables, those in `done` not counted. */
  ghost function Pending(graph: seq<seq<nat>>, done: set<nat>, v: nat, m: nat): nat
    requires m <= |graph|
  {
    if m == 0 then 0
    else Pending(graph, done, v, m - 1) + if m - 1 in done then 0 else Count(graph[m - 1], v)
  }

  lemma {:induction false} PendingDone(graph: seq<seq<nat>>, done: set<nat>, v: nat, m: nat, u: nat)
    requires m <= |graph| && u !in done
    ensures Pending(graph, done + {u}, v, m)
         == Pending(graph, done, v, m) - if u < m then Count(graph[u], v) else 0
    ensures u < m ==> Pending(graph, done, v, m) >= Count(graph[u], v)
  {
    if m > 0 { PendingDone(graph, done, v, m - 1, u); }
  }

  /** Nothing is pending exactly when every referenced table is done. */
  lemma {:induction false} PendingZero(graph: seq<seq<nat>>, done: set<nat>, v: nat, m: nat)
    requires m <= |graph|
    ensures Pending(graph, done, v, m) == 0 <==> forall u | 0 <= u < m && u !in done :: v !in graph[u]
  {
    if m > 0 { PendingZero(graph, done, v, m - 1); }
  }

  ghost predicate Distinct(s: seq<nat>) { forall i, j | 0 <= i < j < |s| :: s[i] != s[j] }

  ghost predicate Bounded(s: seq<nat>, n: nat) { forall i | 0 <= i < |s| :: s[i] < n }

  function Elements(s: seq<nat>): set<nat> { set x | x in s }

  function Below(n: nat): (r: set<nat>)
    ensures |r| == n && forall x: nat :: x in r <==> x < n
  {
    if n == 0 then {} else Below(n - 1) + {n - 1}
  }

  lemma {:induction false} DistinctSize(s: seq<nat>)
    requires Distinct(s)
    ensures |Elements(s)| == |s|
  {
    if s != [] {
      var t := s[..|s| - 1];
      DistinctSize(t);
      assert Elements(s) == Elements(t) + {s[|s| - 1]};
    }
  }

  lemma SubsetSize(a: set<nat>, b: set<nat>)
    requires a <= b
    ensures |a| <= |b| && (|a| == |b| ==> a == b)
    decreases |b|
  {
    if a != {} {
      var x :| x in a;
      SubsetSize(a - {x}, b - {x});
      assert a == a - {x} + {x} && b == b - {x} + {x};
    }
  }

  /** Distinct numbers below `n` are at most `n` many, and all of them if there are `n`. */
  lemma Pigeonhole(s: seq<nat>, n: nat)
    requires Distinct(s) && Bounded(s, n)
    ensures |s| <= n
    ensures |s| == n ==> forall x | 0 <= x < n :: x in s
  {
    DistinctSize(s);
    SubsetSize(Elements(s), Below(n));
    if |s| == n {
      forall x: nat | x < n ensures x in s { assert x in Below(n) && x in Elements(s); }
    }
  }

  /** Every table in `order` comes after all other tables it references. */
  ghost predicate Topological(graph: seq<seq<nat>>, order: seq<nat>) {
    forall i, u | 0 <= i < |order| && References(graph, order[i], u) :: u in order[..i]
  }

  /** The tables without references to others, in their original order. */
  function Roots(graph: seq<seq<nat>>, n: nat): seq<nat>
    requires n <= |graph|
  {
    if n == 0 then [] else Roots(graph, n - 1) + if IsRoot(graph, n - 1) then [n - 1] else []
  }

  predicate IsRoot(graph: seq<seq<nat>>, v: nat) { forall u | 0 <= u < |graph| :: v !in graph[u] }

  lemma {:induction false} RootsAre(graph: seq<seq<nat>>, n: nat)
    requires n <= |graph|
    ensures forall v: nat :: v in Roots(graph, n) <==> v < n && IsRoot(graph, v)
    ensures Distinct(Roots(graph, n)) && Bounded(Roots(graph, n), n)
  {
    hide IsRoot;
    if n > 0 { RootsAre(graph, n - 1); }
  }

  /** What the queue loop keeps: `done` tables are ordered, exactly the ready ones are queued or ordered. */
  ghost predicate Progress(graph: seq<seq<nat>>, order: seq<nat>, queue: seq<nat>) {
    && Distinct(order + queue)
    && Bounded(order + queue, |graph|)
    && Topological(graph, order)
    && Roots(graph, |graph|) <= order + queue
  }

  /** A ready table may be ordered next. */
  lemma TakeReady(graph: seq<seq<nat>>, order: seq<nat>, queue: seq<nat>)
    requires Progress(graph, order, queue) && queue != []
    requires Pending(graph, Elements(order), queue[0], |graph|) == 0
    ensures Progress(graph, order + [queue[0]], queue[1..])
  {
    var u := queue[0];
    assert order + [u] + queue[1..] == order + queue;
    PendingZero(graph, Elements(order), u, |graph|);
    OrderReady(graph, order, u);
  }

  lemma OrderReady(graph: seq<seq<nat>>, order: seq<nat>, u: nat)
    requires Topological(graph, order)
    requires forall w | 0 <= w < |graph| && w !in Elements(order) :: u !in graph[w]
    ensures Topological(graph, order + [u])
  {
    var next := order + [u];
    forall i, w | 0 <= i < |next| && References(graph, next[i], w) ensures w in next[..i] {
      if i < |order| {
        assert next[i] == order[i] && next[..i] == order[..i];
      } else {
        assert next[..i] == order;
      }
    }
  }

  lemma QueueReady(graph: seq<seq<nat>>, order: seq<nat>, queue: seq<nat>, v: nat)
    requires Progress(graph, order, queue) && v < |graph| && v !in order + queue
    ensures Progress(graph, order, queue + [v])
  {
    assert order + (queue + [v]) == order + queue + [v];
  }

  /** The queue's front is a table, not yet ordered. */
  lemma Inside(graph: seq<seq<nat>>, order: seq<nat>, queue: seq<nat>)
    requires Progress(graph, order, queue) && queue != []
    ensures queue[0] < |graph| && queue[0] in order + queue && queue[0] !in order
  {
    hide Topological;
    var both := order + queue;
    assert both[|order|] == queue[0] && forall i | 0 <= i < |order| :: both[i] == order[i];
  }

  lemma Short(graph: seq<seq<nat>>, order: seq<nat>, queue: seq<nat>)
    requires Progress(graph, order, queue)
    ensures |order| + |queue| <= |graph|
  {
    Pigeonhole(order + queue, |graph|);
  }

  /** At the start exactly the roots have in-degree zero. */
  lemma StartReady(graph: seq<seq<nat>>)
    ensures Progress(graph, [], Roots(graph, |graph|))
    ensures forall v | 0 <= v < |graph| :: Pending(graph, {}, v, |graph|) == 0 <==> v in [] + Roots(graph, |graph|)
  {
    assert [] + Roots(graph, |graph|) == Roots(graph, |graph|);
    RootsAre(graph, |graph|);
    forall v | 0 <= v < |graph| ensures Pending(graph, {}, v, |graph|) == 0 <==> v in Roots(graph, |graph|) {
      PendingZero(graph, {}, v, |graph|);
    }
  }

  /** The queue loop: in-degrees count the references to tables not yet ordered. */
  method RunQueue(graph: seq<seq<nat>>, inDegree: array<nat>, start: seq<nat>) returns (order: seq<nat>)
    requires GraphOk(graph) && inDegree.Length == |graph|
    requires start == Roots(graph, |graph|)
    requires forall v | 0 <= v < |graph| :: inDegree[v] == Pending(graph, {}, v, |graph|)
    modifies inDegree
    ensures Progress(graph, order, [])
    ensures forall v | 0 <= v < |graph| && v !in order :: Pending(graph, Elements(order), v, |graph|) > 0
  {
    hide Pending, Progress, Roots, Distinct;
    var queue := start;
    order := [];
    StartReady(graph);
    assert order + queue == start && Elements(order) == {};
    while queue != []
      invariant Progress(graph, order, queue)
      invariant forall v | 0 <= v < |graph| :: inDegree[v] == Pending(graph, Elements(order), v, |graph|)
      invariant forall v | 0 <= v < |graph| :: inDegree[v] == 0 <==> v in order + queue
      decreases |graph| - |order|
    {
      var u := queue[0];
      Inside(graph, order, queue);
      TakeReady(graph, order, queue);
      assert order + [u] + queue[1..] == order + queue;
      ghost var done := Elements(order);
      queue, order := queue[1..], order + [u];
      assert Elements(order) == done + {u};
      queue := Release(graph, inDegree, order, queue, u, done);
      Short(graph, order, queue);
    }
    assert order + [] == order;
  }

  /** Dropping the references to `u` just ordered, and queueing each table whose last one it was. */
  method Release(graph: seq<seq<nat>>, inDegree: array<nat>, order: seq<nat>, queue0: seq<nat>, u: nat,
                 ghost done: set<nat>)
    returns (queue: seq<nat>)
    requires GraphOk(graph) && inDegree.Length == |graph| && u < |graph| && u !in done
    requires Progress(graph, order, queue0) && Elements(order) == done + {u}
    requires forall v | 0 <= v < |graph| :: inDegree[v] == Pending(graph, done, v, |graph|)
    requires forall v | 0 <= v < |graph| :: inDegree[v] == 0 <==> v in order + queue0
    modifies inDegree
    ensures Progress(graph, order, queue)
    ensures forall v | 0 <= v < |graph| :: inDegree[v] == Pending(graph, Elements(order), v, |graph|)
    ensures forall v | 0 <= v < |graph| :: inDegree[v] == 0 <==> v in order + queue
  {
    queue := queue0;
    forall v | 0 <= v < |graph|
      ensures inDegree[v] == Pending(graph, done + {u}, v, |graph|) + Count(graph[u], v)
    {
      PendingDone(graph, done, v, |graph|, u);
    }
    assert graph[u][0..] == graph[u];
    for k := 0 to |graph[u]|
      invariant Progress(graph, order, queue)
      invariant forall v | 0 <= v < |graph| ::
                  inDegree[v] == Pending(graph, done + {u}, v, |graph|) + Count(graph[u][k..], v)
      invariant forall v | 0 <= v < |graph| :: inDegree[v] == 0 <==> v in order + queue
    {
      var v := graph[u][k];
      assert graph[u][k..] == [v] + graph[u][k + 1..];
      inDegree[v] := inDegree[v] - 1;
      if inDegree[v] == 0 {
        QueueReady(graph, order, queue, v);
        assert order + (queue + [v]) == order + queue + [v];
        queue := queue + [v];
      }
    }
  }

  // ----- cycles

  /** Each table of the path references the next. */
  ghost predicate Chain(graph: seq<seq<nat>>, path: seq<nat>) {
    |path| > 0 && forall i | 0 <= i < |path| - 1 :: References(graph, path[i], path[i + 1])
  }

  /** Following references from `v` one can come back to a table already passed. */
  ghost predicate DependsOnCycle(graph: seq<seq<nat>>, v: nat) {
    exists path :: Chain(graph, path) && path[0] == v && !Distinct(path)
  }

  /** From an ordered table every chain of references runs towards the front and never returns. */
  lemma {:induction false} ChainRunsForward(graph: seq<seq<nat>>, order: seq<nat>, path: seq<nat>, p: nat)
    requires Topological(graph, order) && Distinct(order) && p < |order|
    requires Chain(graph, path) && path[0] == order[p]
    ensures Distinct(path)
    ensures forall i | 1 <= i < |path| :: path[i] in order[..p]
    decreases |path|
  {
    if |path| > 1 {
      assert References(graph, path[0], path[1]);
      assert path[1] in order[..p];
      var q :| 0 <= q < p && order[..p][q] == path[1];
      var rest := path[1..];
      forall i | 0 <= i < |rest| - 1 ensures References(graph, rest[i], rest[i + 1]) {
        assert References(graph, path[i + 1], path[i + 2]);
      }
      ChainRunsForward(graph, order, rest, q);
      forall i | 1 <= i < |path| ensures path[i] in order[..p] {
        if i > 1 { assert rest[i - 1] in order[..q]; }
      }
    }
  }

  /** A table left out of the order references another one left out, so one can walk as far as one likes. */
  lemma {:induction false} WalkBack(graph: seq<seq<nat>>, order: seq<nat>, v: nat, k: nat) returns (path: seq<nat>)
    requires v < |graph| && v !in order
    requires forall x: nat | x < |graph| && x !in order :: Pending(graph, Elements(order), x, |graph|) > 0
    ensures Chain(graph, path) && path[0] == v && |path| == k + 1 && Bounded(path, |graph|)
    decreases k
  {
    if k == 0 {
      path := [v];
    } else {
      PendingZero(graph, Elements(order), v, |graph|);
      var u :| 0 <= u < |graph| && u !in Elements(order) && v in graph[u];
      var rest := WalkBack(graph, order, u, k - 1);
      path := [v] + rest;
      forall i | 0 <= i < |path| - 1 ensures References(graph, path[i], path[i + 1]) {
        if i > 0 { assert References(graph, rest[i - 1], rest[i]); }
      }
    }
  }

  /** The queue leaves out exactly the tables that depend, directly or not, on a cycle. */
  lemma LeftOutIffCycle(graph: seq<seq<nat>>, order: seq<nat>, v: nat)
    requires Progress(graph, order, []) && v < |graph|
    requires forall x: nat | x < |graph| && x !in order :: Pending(graph, Elements(order), x, |graph|) > 0
    ensures v !in order <==> DependsOnCycle(graph, v)
  {
    assert order + [] == order;
    if v in order {
      var p :| 0 <= p < |order| && order[p] == v;
      forall path | Chain(graph, path) && path[0] == v ensures Distinct(path) {
        ChainRunsForward(graph, order, path, p);
      }
    } else {
      var path := WalkBack(graph, order, v, |graph|);
      if Distinct(path) { Pigeonhole(path, |graph|); }
    }
  }

  /** What `build` promises of the table order; the first `emitted` tables come from the queue. */
  ghost predicate TableOrdered(graph: seq<seq<nat>>, order: seq<nat>, emitted: nat) {
    && |order| == |graph| && Distinct(order) && Bounded(order, |graph|)
    && emitted <= |order|
    && Roots(graph, |graph|) <= order[..emitted]
    && Topological(graph, order[..emitted])
    && (forall v: nat | v < |graph| :: v !in order[..emitted] <==> DependsOnCycle(graph, v))
    && (forall i, j | emitted <= i < j < |order| :: order[i] < order[j])
  }

  /** The order of the tables: the queue's, then the rest as they were. */
  method TableOrder(graph: seq<seq<nat>>, inDegree: array<nat>) returns (order: seq<nat>, ghost emitted: nat)
    requires GraphOk(graph) && inDegree.Length == |graph|
    requires forall v | 0 <= v < |graph| :: inDegree[v] == Pending(graph, {}, v, |graph|)
    modifies inDegree
    ensures TableOrdered(graph, order, emitted)
  {
    var n := |graph|;
    var queue: seq<nat> := [];
    for i := 0 to n
      invariant queue == Roots(graph, i)
      invariant forall v | 0 <= v < n :: inDegree[v] == Pending(graph, {}, v, n)
    {
      PendingZero(graph, {}, i, n);
      if inDegree[i] == 0 {
        queue := queue + [i];
      }
    }
    var sorted := RunQueue(graph, inDegree, queue);
    assert sorted + [] == sorted;
    Pigeonhole(sorted, n);
    emitted := |sorted|;
    forall v: nat | v < n ensures v !in sorted <==> DependsOnCycle(graph, v) {
      LeftOutIffCycle(graph, sorted, v);
    }
    order := sorted;
    if |sorted| < n {
      order := AppendRest(sorted, n);
    }
    assert order[..emitted] == sorted;
  }

  /** The fallback: every index not yet ordered, in ascending order. */
  method AppendRest(sorted: seq<nat>, n: nat) returns (order: seq<nat>)
    requires Distinct(sorted) && Bounded(sorted, n)
    ensures |order| == n && Distinct(order) && Bounded(order, n)
    ensures sorted <= order
    ensures forall i, j | |sorted| <= i < j < |order| :: order[i] < order[j]
  {
    var visited := new bool[n](_ => false);
    for k := 0 to |sorted|
      invariant forall v: nat | v < n :: visited[v] <==> v in sorted[..k]
    {
      visited[sorted[k]] := true;
      assert sorted[..k + 1] == sorted[..k] + [sorted[k]];
    }
    assert sorted[..|sorted|] == sorted;
    order := sorted;
    for i := 0 to n
      invariant Distinct(order) && Bounded(order, n) && sorted <= order
      invariant forall v: nat | v < n :: visited[v] <==> v in sorted
      invariant forall k | |sorted| <= k < |order| :: order[k] < i
      invariant forall v: nat | v < i :: v in order
      invariant forall j, k | |sorted| <= j < k < |order| :: order[j] < order[k]
      invariant forall v: nat | i <= v < n && v !in sorted :: v !in order
    {
      if !visited[i] {
        order := order + [i];
      }
    }
    AllPresent(order, n);
  }

  lemma AllPresent(order: seq<nat>, n: nat)
    requires Distinct(order) && Bounded(order, n) && forall v: nat | v < n :: v in order
    ensures |order| == n
  {
    Pigeonhole(order, n);
    DistinctSize(order);
    assert Below(n) <= Elements(order);
    SubsetSize(Below(n), Elements(order));
  }
}
