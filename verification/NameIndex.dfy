/**
  The by-name index: table indices sorted by name symbol, and binary search over
  it in place of a scan of the tables.
 */
module NameIndex {
  import opened Bytes
  import opened Symbols
  import opened SchemaTypes
  import opened TopoSort

  /** A permutation of the tables' indices, sorted by name. */
  ghost predicate ByNameOk(byName: seq<nat>, ts: seq<TableMeta>) {
    && |byName| == |ts| && Distinct(byName) && Bounded(byName, |ts|)
    && forall i, j | 0 <= i < j < |byName| :: ts[byName[i]].name <= ts[byName[j]].name
  }

  /** The linear scan that the index replaces: the table of that name. */
  function IndexOfName(ts: seq<TableMeta>, name: Symbol): (r: Option<nat>)
    ensures r.Some? ==> r.value < |ts| && ts[r.value].name == name
    ensures r.None? ==> forall i | 0 <= i < |ts| :: ts[i].name != name
  {
    if ts == [] then None
    else if ts[|ts| - 1].name == name then Some(|ts| - 1)
    else IndexOfName(ts[..|ts| - 1], name)
  }

  /** `sort_unstable_by_key` of the table indices by name. */
  method SortByName(ts: seq<TableMeta>) returns (byName: seq<nat>)
    ensures ByNameOk(byName, ts)
  {
    byName := [];
    for i := 0 to |ts|
      invariant |byName| == i && Distinct(byName) && Bounded(byName, i)
      invariant forall a, b | 0 <= a < b < |byName| :: ts[byName[a]].name <= ts[byName[b]].name
    {
      var p := 0;
      while p < |byName| && ts[byName[p]].name <= ts[i].name
        invariant p <= |byName|
        invariant forall a | 0 <= a < p :: ts[byName[a]].name <= ts[i].name
      {
        p := p + 1;
      }
      byName := InsertAt(ts, byName, i, p);
    }
  }

  function InsertAt(ts: seq<TableMeta>, s: seq<nat>, i: nat, p: nat): (r: seq<nat>)
    requires i < |ts| && |s| == i && p <= |s| && Distinct(s) && Bounded(s, i)
    requires forall a, b | 0 <= a < b < |s| :: ts[s[a]].name <= ts[s[b]].name
    requires forall a | 0 <= a < p :: ts[s[a]].name <= ts[i].name
    requires p < |s| ==> ts[i].name <= ts[s[p]].name
    ensures |r| == i + 1 && Distinct(r) && Bounded(r, i + 1)
    ensures forall a, b | 0 <= a < b < |r| :: ts[r[a]].name <= ts[r[b]].name
  {
    s[..p] + [i] + s[p..]
  }

  /** Binary search by name: a slot whose table has the name, or proof that none has. */
  method SearchByName(byName: seq<nat>, ts: seq<TableMeta>, name: Symbol) returns (slot: Option<nat>)
    requires ByNameOk(byName, ts)
    ensures slot.Some? ==> slot.value < |byName| && ts[byName[slot.value]].name == name
    ensures slot.None? ==> forall i | 0 <= i < |ts| :: ts[i].name != name
  {
    var lo, hi := 0, |byName|;
    while lo < hi
      invariant lo <= hi <= |byName|
      invariant forall i | 0 <= i < lo :: ts[byName[i]].name < name
      invariant forall i | hi <= i < |byName| :: ts[byName[i]].name > name
    {
      var mid := (lo + hi) / 2;
      if ts[byName[mid]].name == name {
        return Some(mid);
      } else if ts[byName[mid]].name < name {
        lo := mid + 1;
      } else {
        hi := mid;
      }
    }
    Pigeonhole(byName, |ts|);
    forall i: nat | i < |ts| ensures ts[i].name != name {
      assert i in byName;
      var k :| 0 <= k < |byName| && byName[k] == i;
    }
    slot := None;
  }

  /**
    `table_by_symbol`: binary search answers exactly as the linear scan, for every
    symbol, as long as no two tables share a name.
   */
  method TableBySymbol(s: Tables, symbol: Symbol) returns (r: Option<nat>)
    requires ByNameOk(s.byName, s.tables)
    requires forall i, j | 0 <= i < j < |s.tables| :: s.tables[i].name != s.tables[j].name
    ensures r == IndexOfName(s.tables, symbol)
  {
    var slot := SearchByName(s.byName, s.tables, symbol);
    if slot.None? {
      return None;
    }
    r := Some(s.byName[slot.value]);
  }
}
