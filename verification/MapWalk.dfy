/**
 The user-space walks over a BPF hash map that nobody else is writing: clearing it, collecting it,
 and the fused walk that folds, emits and clears.  CacheMissProtocol has the concurrent story.
 */
module MapWalk {
  import opened Options
  import opened BpfTable
  import opened Sequences
  import opened Sorting
  import P = CacheMissProtocol

  // ----- The order of a walk -----------------------------------------------------------------------------

  lemma {:induction false} FirstExists<K, V>(t: Table<K, V>) returns (k: K)
    requires t != map[]
    ensures IsNextKey(t, None, Some(k))
    decreases |t|
  {
    assert exists j :: j in t by {
      if forall j :: j !in t {
        assert false;
      }
    }
    k :| k in t;
    var rest := t - {k};
    assert t.Keys == rest.Keys + {k};
    if rest != map[] {
      var best := FirstExists(rest);
      k := if rest[best].rank < t[k].rank then best else k;
    } else {
      assert forall j | j in t :: j in rest.Keys + {k};
    }
  }

  /** The keys by their place in the bucket order: what `get_next_key` steps through. */
  ghost function Order<K(!new), V>(t: Table<K, V>): seq<K>
    decreases |t|
  {
    if t == map[] then []
    else
      assert exists k :: IsNextKey(t, None, Some(k)) by {
        var k := FirstExists(t);
      }
      var k :| IsNextKey(t, None, Some(k));
      assert t.Keys == (t - {k}).Keys + {k};
      [k] + Order(t - {k})
  }

  lemma FirstIsUnique<K, V>(t: Table<K, V>, k: K, k': K)
    requires DistinctRanks(t) && IsNextKey(t, None, Some(k)) && IsNextKey(t, None, Some(k'))
    ensures k == k'
  {
  }

  lemma OrderUnfolds<K(!new), V>(t: Table<K, V>, k: K)
    requires DistinctRanks(t) && IsNextKey(t, None, Some(k))
    ensures Order(t) == [k] + Order(t - {k}) && DistinctRanks(t - {k}) && |t| == |t - {k}| + 1
  {
    var first := Order(t)[0];
    assert t != map[] && IsNextKey(t, None, Some(first));
    FirstIsUnique(t, k, first);
    assert t.Keys == (t - {k}).Keys + {k};
  }

  /** A walk meets every key exactly once. */
  lemma {:induction false} OrderMeetsOnce<K(!new), V>(t: Table<K, V>)
    requires DistinctRanks(t)
    ensures multiset(Order(t)) == multiset(t.Keys) && |Order(t)| == |t|
    decreases |t|
  {
    if t == map[] {
    } else {
      var k := FirstExists(t);
      OrderUnfolds(t, k);
      OrderMeetsOnce(t - {k});
      assert t.Keys == (t - {k}).Keys + {k};
    }
  }

  lemma OrderIsOf<K(!new), V>(t: Table<K, V>, i: nat)
    requires DistinctRanks(t) && i < |Order(t)|
    ensures Order(t)[i] in t
  {
    OrderMeetsOnce(t);
    assert Order(t)[i] in multiset(Order(t));
  }

  lemma FirstIsBelow<K, V>(t: Table<K, V>, k: K, j: K)
    requires DistinctRanks(t) && IsNextKey(t, None, Some(k)) && j in t && j != k
    ensures t[k].rank < t[j].rank
  {
    assert Follows(t, None, j);
  }

  /** ... in the order of their places. */
  lemma {:induction false} OrderAscends<K(!new), V>(t: Table<K, V>, i: nat, j: nat)
    requires DistinctRanks(t) && i < j < |Order(t)|
    ensures Order(t)[i] in t && Order(t)[j] in t && t[Order(t)[i]].rank < t[Order(t)[j]].rank
    decreases |t|
  {
    OrderIsOf(t, i);
    OrderIsOf(t, j);
    var k := FirstExists(t);
    OrderUnfolds(t, k);
    hide Order, IsNextKey, DistinctRanks;
    if i > 0 {
      OrderAscends(t - {k}, i - 1, j - 1);
    } else {
      OrderIsOf(t - {k}, j - 1);
      FirstIsBelow(t, k, Order(t)[j]);
    }
  }

  /** `rest` is what is left of `t` from some place of the order on. */
  ghost predicate Tail<K, V>(t: Table<K, V>, rest: Table<K, V>) {
    && DistinctRanks(t)
    && (forall k | k in rest :: k in t && t[k] == rest[k])
    && (forall k, j | k in rest && j in t && t[j].rank > t[k].rank :: j in rest)
  }

  lemma TailShrinks<K, V>(t: Table<K, V>, rest: Table<K, V>, k: K)
    requires Tail(t, rest) && IsNextKey(rest, None, Some(k))
    ensures Tail(t, rest - {k}) && DistinctRanks(rest)
  {
  }

  /** The key after `k` is the first of what remains, whether the walk deletes behind itself or not. */
  lemma NextIsFirst<K, V>(t: Table<K, V>, rest: Table<K, V>, at: Table<K, V>, k: K, next: Option<K>)
    requires Tail(t, rest) && IsNextKey(rest, None, Some(k)) && (at == t || at == rest)
    requires IsNextKey(at, Some(k), next)
    ensures IsNextKey(rest - {k}, None, next)
  {
    assert forall j | j in rest - {k} :: j in at && Follows(at, Some(k), j);
    assert forall j | j in at && Follows(at, Some(k), j) :: j in rest - {k};
  }

  lemma NoFirst<K(!new), V>(t: Table<K, V>)
    requires IsNextKey(t, None, None)
    ensures t == map[] && Order(t) == []
  {
    if t != map[] {
      var k := FirstExists(t);
      assert false;
    }
  }

  class BpfMap<K(==), V> {
    var table: Table<K, V>

    method GetNextKey(cur: Option<K>) returns (next: Option<K>)
      ensures IsNextKey(table, cur, next)
    {
      next := None;
      var rest := table.Keys;
      while rest != {}
        invariant rest <= table.Keys
        invariant next.None? ==> forall k | k in table && k !in rest :: !Follows(table, cur, k)
        invariant next.Some? ==> next.value in table && Follows(table, cur, next.value)
        invariant next.Some? ==> forall k | k in table && k !in rest && Follows(table, cur, k) ::
                                   table[next.value].rank <= table[k].rank
        decreases |rest|
      {
        assert exists k :: k in rest by {
          if forall k :: k !in rest {
            assert false;
          }
        }
        var k :| k in rest;
        if Follows(table, cur, k) && (next.None? || table[k].rank < table[next.value].rank) {
          next := Some(k);
        }
        rest := rest - {k};
      }
    }

    method DeleteElem(k: K)
      modifies this
      ensures table == old(table) - {k}
    {
      table := table - {k};
    }
  }

  // ----- clear_count_map ---------------------------------------------------------------------------------

  /** Fetch the next key, delete the current one: every key is visited once, in order. */
  method Clear<K(==, !new), V>(m: BpfMap<K, V>) returns (visited: seq<K>)
    requires DistinctRanks(m.table)
    modifies m
    ensures m.table == map[]
    ensures visited == old(Order(m.table))
  {
    hide Order, DistinctRanks, IsNextKey;
    visited := [];
    var res := m.GetNextKey(None);
    while res.Some?
      invariant DistinctRanks(m.table) && IsNextKey(m.table, None, res)
      invariant old(Order(m.table)) == visited + Order(m.table)
      decreases |m.table|
    {
      var cur := res.value;
      ghost var before := m.table;
      TailWhole(before);
      res := m.GetNextKey(Some(cur));
      OrderUnfolds(before, cur);
      NextIsFirst(before, before, before, cur, res);
      m.DeleteElem(cur);
      visited := visited + [cur];
    }
    NoFirst(m.table);
  }

  lemma TailWhole<K, V>(t: Table<K, V>)
    requires DistinctRanks(t)
    ensures Tail(t, t)
  {
  }

  // ----- collect_counts ----------------------------------------------------------------------------------

  datatype Counts = Counts(l1i: nat, llc: nat)
  type CountTable = Table<P.Key, Counts>

  /** By CPU, then thread group, then thread. */
  predicate Before(a: P.Row, b: P.Row) {
    if a.key.cpu != b.key.cpu then a.key.cpu < b.key.cpu
    else if a.key.tgid != b.key.tgid then a.key.tgid < b.key.tgid
    else a.key.pid < b.key.pid
  }

  function RowOf(t: CountTable, k: P.Key): P.Row
    requires k in t
  {
    P.Row(k, t[k].value.l1i, t[k].value.llc)
  }

  /** The entries of the keys `ks`; a key whose lookup fails has none. */
  function Rows(t: CountTable, ks: seq<P.Key>): seq<P.Row> {
    if ks == [] then []
    else
      var k := ks[|ks| - 1];
      Rows(t, ks[..|ks| - 1]) + if k in t then [RowOf(t, k)] else []
  }

  ghost function Collected(t: CountTable): seq<P.Row> {
    SortBy(Rows(t, Order(t)), Before)
  }

  method CollectCounts(m: BpfMap<P.Key, Counts>) returns (entries: seq<P.Row>)
    requires DistinctRanks(m.table)
    ensures entries == Collected(m.table)
  {
    hide Order, DistinctRanks, IsNextKey, Tail, Rows, RowOf, SortBy;
    entries := [];
    ghost var visited, rest := [], m.table;
    TailWhole(rest);
    RowsEmpty(m.table);
    var res := m.GetNextKey(None);
    while res.Some?
      invariant Tail(m.table, rest) && DistinctRanks(rest) && IsNextKey(rest, None, res)
      invariant Order(m.table) == visited + Order(rest)
      invariant entries == Rows(m.table, visited)
      decreases |rest|
    {
      var cur := res.value;
      OrderUnfolds(rest, cur);
      TailHas(m.table, rest, cur);
      RowsNext(m.table, visited, cur);
      if cur in m.table {
        entries := entries + [P.Row(cur, m.table[cur].value.l1i, m.table[cur].value.llc)];
      }
      res := m.GetNextKey(Some(cur));
      NextIsFirst(m.table, rest, m.table, cur, res);
      TailShrinks(m.table, rest, cur);
      visited, rest := visited + [cur], rest - {cur};
    }
    NoFirst(rest);
    assert visited + [] == visited;
    entries := SortBy(entries, Before);
  }

  lemma RowsEmpty(t: CountTable)
    ensures Rows(t, []) == []
  {
  }

  lemma RowsNext(t: CountTable, ks: seq<P.Key>, k: P.Key)
    requires k in t
    ensures Rows(t, ks + [k]) == Rows(t, ks) + [P.Row(k, t[k].value.l1i, t[k].value.llc)]
  {
    assert (ks + [k])[..|ks|] == ks;
  }

  /** One entry for every key, and nothing else. */
  lemma {:induction false} RowsExact(t: CountTable, ks: seq<P.Key>, e: P.Row)
    ensures multiset(Rows(t, ks))[e] == if e.key in t && e == RowOf(t, e.key) then multiset(ks)[e.key] else 0
  {
    if ks == [] {
    } else {
      RowsExact(t, ks[..|ks| - 1], e);
      assert ks == ks[..|ks| - 1] + [ks[|ks| - 1]];
    }
  }

  lemma CollectedExact(t: CountTable, e: P.Row)
    requires DistinctRanks(t)
    ensures multiset(Collected(t))[e] ==
            if e.key in t && e.l1i == t[e.key].value.l1i && e.llc == t[e.key].value.llc then 1 else 0
  {
    OrderMeetsOnce(t);
    RowsExact(t, Order(t), e);
    SortMembers(Rows(t, Order(t)), Before);
  }

  lemma BeforeIsStrict()
    ensures StrictOrder(Before)
  {
  }

  /** The entries come strictly by CPU, thread group and thread. */
  lemma CollectedInOrder(t: CountTable, i: nat, j: nat)
    requires DistinctRanks(t) && i < j < |Collected(t)|
    ensures Before(Collected(t)[i], Collected(t)[j])
    ensures var a, b := Collected(t)[i].key, Collected(t)[j].key;
            || a.cpu < b.cpu
            || (a.cpu == b.cpu && a.tgid < b.tgid)
            || (a.cpu == b.cpu && a.tgid == b.tgid && a.pid < b.pid)
  {
    var es := Collected(t);
    BeforeIsStrict();
    SortOrders(Rows(t, Order(t)), Before);
    assert !Before(es[j], es[i]);
    if !Before(es[i], es[j]) {
      CollectedExact(t, es[i]);
      CollectedExact(t, es[j]);
      assert es[i] in multiset(es) && es[j] in multiset(es);
      assert es[i].key == es[j].key && es[i] == es[j];
      TwiceCounts(es, i, j);
      assert false;
    }
  }

  /** Two lists with the same entries in strict order are the same list. */
  lemma {:induction false} StrictlySortedUnique(a: seq<P.Row>, b: seq<P.Row>)
    requires multiset(a) == multiset(b)
    requires forall i, j | 0 <= i < j < |a| :: Before(a[i], a[j])
    requires forall i, j | 0 <= i < j < |b| :: Before(b[i], b[j])
    ensures a == b
  {
    hide Before;
    assert |multiset(a)| == |a| && |multiset(b)| == |b|;
    if a == [] {
    } else {
      SameHead(a, b);
      TailBag(a);
      TailBag(b);
      StrictlySortedUnique(a[1..], b[1..]);
      assert a == [a[0]] + a[1..] && b == [b[0]] + b[1..];
    }
  }

  lemma TailBag<T>(s: seq<T>)
    requires s != []
    ensures multiset(s[1..]) == multiset(s) - multiset{s[0]}
  {
    assert s == [s[0]] + s[1..];
  }

  lemma Asymmetric(x: P.Row, y: P.Row)
    ensures !(Before(x, y) && Before(y, x))
  {
  }

  lemma SameHead(a: seq<P.Row>, b: seq<P.Row>)
    requires a != [] && b != [] && multiset(a) == multiset(b)
    requires forall i, j | 0 <= i < j < |a| :: Before(a[i], a[j])
    requires forall i, j | 0 <= i < j < |b| :: Before(b[i], b[j])
    ensures a[0] == b[0]
  {
    assert a[0] in multiset(a) && b[0] in multiset(b);
    SameMembers(a, b);
    assert a[0] in b && b[0] in a;
    Asymmetric(a[0], b[0]);
  }

  /** The collection depends on what the map holds, not on the bucket order. */
  lemma CollectedIgnoresBuckets(t: CountTable, t': CountTable)
    requires DistinctRanks(t) && DistinctRanks(t') && t.Keys == t'.Keys
    requires forall k | k in t :: t[k].value == t'[k].value
    ensures Collected(t) == Collected(t')
  {
    hide Collected;
    var a, b := Collected(t), Collected(t');
    forall e: P.Row
      ensures multiset(a)[e] == multiset(b)[e]
    {
      CollectedExact(t, e);
      CollectedExact(t', e);
    }
    forall i, j | 0 <= i < j < |a|
      ensures Before(a[i], a[j])
    {
      CollectedInOrder(t, i, j);
    }
    forall i, j | 0 <= i < j < |b|
      ensures Before(b[i], b[j])
    {
      CollectedInOrder(t', i, j);
    }
    StrictlySortedUnique(a, b);
  }

  // ----- dump_flows --------------------------------------------------------------------------------------

  const TWO_TO_THE_64: nat := 0x1_0000_0000_0000_0000

  type FlowKey = nat
  datatype FlowStats = FlowStats(bytes: nat, pkts: nat)
  type FlowTable = Table<FlowKey, seq<FlowStats>>
  datatype Flow = Flow(key: FlowKey, bytes: nat, pkts: nat)

  function SumBytes(cpus: seq<FlowStats>): nat {
    if cpus == [] then 0 else SumBytes(cpus[..|cpus| - 1]) + cpus[|cpus| - 1].bytes
  }

  function SumPkts(cpus: seq<FlowStats>): nat {
    if cpus == [] then 0 else SumPkts(cpus[..|cpus| - 1]) + cpus[|cpus| - 1].pkts
  }

  /** One flow over all CPUs; the sums are 64 bits wide. */
  function FlowOf(k: FlowKey, cpus: seq<FlowStats>): Flow {
    Flow(k, SumBytes(cpus) % TWO_TO_THE_64, SumPkts(cpus) % TWO_TO_THE_64)
  }

  /** The flows of the keys `ks`, without those that moved no byte. */
  function Flows(t: FlowTable, ks: seq<FlowKey>): seq<Flow> {
    if ks == [] then []
    else
      var k := ks[|ks| - 1];
      Flows(t, ks[..|ks| - 1])
      + if k in t && FlowOf(k, t[k].value).bytes != 0 then [FlowOf(k, t[k].value)] else []
  }

  method FoldCpus(k: FlowKey, cpus: seq<FlowStats>) returns (flow: Flow)
    ensures flow == FlowOf(k, cpus)
  {
    var bytes, pkts := 0, 0;
    for i := 0 to |cpus|
      invariant bytes == SumBytes(cpus[..i]) % TWO_TO_THE_64
      invariant pkts == SumPkts(cpus[..i]) % TWO_TO_THE_64
    {
      assert cpus[..i + 1][..i] == cpus[..i];
      AddModulo(SumBytes(cpus[..i]), cpus[i].bytes);
      AddModulo(SumPkts(cpus[..i]), cpus[i].pkts);
      bytes, pkts := (bytes + cpus[i].bytes) % TWO_TO_THE_64, (pkts + cpus[i].pkts) % TWO_TO_THE_64;
    }
    assert cpus[..|cpus|] == cpus;
    flow := Flow(k, bytes, pkts);
  }

  lemma AddModulo(a: nat, b: nat)
    ensures (a % TWO_TO_THE_64 + b) % TWO_TO_THE_64 == (a + b) % TWO_TO_THE_64
  {
  }

  /** The fused walk has the effect of collecting every flow and then, if asked, clearing the map. */
  method DumpFlows(m: BpfMap<FlowKey, seq<FlowStats>>, clearAfter: bool) returns (visited: nat, emitted: seq<Flow>)
    requires DistinctRanks(m.table)
    modifies m
    ensures emitted == old(Flows(m.table, Order(m.table)))
    ensures m.table == if clearAfter then map[] else old(m.table)
    ensures visited == old(|m.table|)
  {
    hide Order, DistinctRanks, IsNextKey, Tail, Flows;
    visited, emitted := 0, [];
    ghost var all, walked, rest := m.table, [], m.table;
    TailWhole(rest);
    FlowsEmpty(all);
    var res := m.GetNextKey(None);
    while res.Some?
      invariant m.table == if clearAfter then rest else all
      invariant Tail(all, rest) && DistinctRanks(rest) && IsNextKey(rest, None, res)
      invariant Order(all) == walked + Order(rest) && visited == |all| - |rest|
      invariant emitted == Flows(all, walked)
      decreases |rest|
    {
      var cur := res.value;
      OrderUnfolds(rest, cur);
      TailHas(all, rest, cur);
      visited := visited + 1;
      FlowsNext(all, walked, cur);
      if cur in m.table {
        var flow := FoldCpus(cur, m.table[cur].value);
        if flow.bytes != 0 {
          emitted := emitted + [flow];
        }
      }
      res := m.GetNextKey(Some(cur));
      NextIsFirst(all, rest, m.table, cur, res);
      TailShrinks(all, rest, cur);
      if clearAfter {
        m.DeleteElem(cur);
      }
      walked, rest := walked + [cur], rest - {cur};
    }
    NoFirst(rest);
    assert walked + [] == walked;
  }

  lemma TailHas<K, V>(t: Table<K, V>, rest: Table<K, V>, k: K)
    requires Tail(t, rest) && IsNextKey(rest, None, Some(k))
    ensures k in t && k in rest && t[k] == rest[k]
  {
  }

  lemma FlowsEmpty(t: FlowTable)
    ensures Flows(t, []) == []
  {
  }

  lemma FlowsNext(t: FlowTable, ks: seq<FlowKey>, k: FlowKey)
    requires k in t
    ensures Flows(t, ks + [k]) ==
            Flows(t, ks) + if FlowOf(k, t[k].value).bytes != 0 then [FlowOf(k, t[k].value)] else []
  {
    assert (ks + [k])[..|ks|] == ks;
  }

  /** Every flow that moved a byte is emitted once, with its sums; no other is. */
  lemma {:induction false} FlowsExact(t: FlowTable, ks: seq<FlowKey>, f: Flow)
    ensures multiset(Flows(t, ks))[f] ==
            if f.key in t && f == FlowOf(f.key, t[f.key].value) && f.bytes != 0 then multiset(ks)[f.key] else 0
  {
    if ks == [] {
    } else {
      FlowsExact(t, ks[..|ks| - 1], f);
      assert ks == ks[..|ks| - 1] + [ks[|ks| - 1]];
    }
  }

  lemma DumpExact(t: FlowTable, f: Flow)
    requires DistinctRanks(t)
    ensures multiset(Flows(t, Order(t)))[f] ==
            if f.key in t && f.bytes != 0
               && f.bytes == SumBytes(t[f.key].value) % 0x1_0000_0000_0000_0000
               && f.pkts == SumPkts(t[f.key].value) % 0x1_0000_0000_0000_0000
            then 1 else 0
  {
    OrderMeetsOnce(t);
    FlowsExact(t, Order(t), f);
  }

  /** The sums are over all CPUs, byte counts with byte counts and packets with packets. */
  lemma {:induction false} SumsSplit(a: seq<FlowStats>, b: seq<FlowStats>)
    ensures SumBytes(a + b) == SumBytes(a) + SumBytes(b) && SumPkts(a + b) == SumPkts(a) + SumPkts(b)
  {
    if b == [] {
      assert a + b == a;
    } else {
      SumsSplit(a, b[..|b| - 1]);
      assert (a + b)[..|a + b| - 1] == a + b[..|b| - 1];
    }
  }

  lemma SumsOne(c: FlowStats)
    ensures SumBytes([c]) == c.bytes && SumPkts([c]) == c.pkts
  {
    assert [c][..0] == [];
    assert SumBytes([]) == 0 && SumPkts([]) == 0;
  }

  lemma {:induction false} FlowsAreOf(t: FlowTable, ks: seq<FlowKey>)
    ensures forall i | 0 <= i < |Flows(t, ks)| :: Flows(t, ks)[i].key in ks
  {
    if ks == [] {
    } else {
      FlowsAreOf(t, ks[..|ks| - 1]);
    }
  }

  lemma {:induction false} FlowsInOrder(t: FlowTable, ks: seq<FlowKey>)
    requires forall i, j | 0 <= i < j < |ks| :: ks[i] in t && ks[j] in t && t[ks[i]].rank < t[ks[j]].rank
    requires forall k | k in ks :: k in t
    ensures forall i | 0 <= i < |Flows(t, ks)| :: Flows(t, ks)[i].key in t
    ensures forall i, j | 0 <= i < j < |Flows(t, ks)| :: t[Flows(t, ks)[i].key].rank < t[Flows(t, ks)[j].key].rank
  {
    if ks == [] {
    } else {
      var before := ks[..|ks| - 1];
      FlowsInOrder(t, before);
      FlowsAreOf(t, before);
    }
  }

  /** The flows are emitted in the bucket order. */
  lemma DumpInOrder(t: FlowTable, i: nat, j: nat)
    requires DistinctRanks(t) && i < j < |Flows(t, Order(t))|
    ensures var fs := Flows(t, Order(t));
            fs[i].key in t && fs[j].key in t && t[fs[i].key].rank < t[fs[j].key].rank
  {
    var ks := Order(t);
    forall i, j | 0 <= i < j < |ks|
      ensures ks[i] in t && ks[j] in t && t[ks[i]].rank < t[ks[j]].rank
    {
      OrderAscends(t, i, j);
    }
    forall k | k in ks
      ensures k in t
    {
      OrderMeetsOnce(t);
      assert k in multiset(ks);
    }
    hide Order, Flows;
    FlowsInOrder(t, ks);
  }

  function EmittedBytes(fs: seq<Flow>): nat {
    if fs == [] then 0 else EmittedBytes(fs[..|fs| - 1]) + fs[|fs| - 1].bytes
  }

  function TableBytes(t: FlowTable, ks: seq<FlowKey>): nat {
    if ks == [] then 0
    else
      var k := ks[|ks| - 1];
      TableBytes(t, ks[..|ks| - 1]) + if k in t then SumBytes(t[k].value) else 0
  }

  /** Leaving out the empty flows loses no byte: the totals agree modulo 2^64. */
  lemma {:induction false} BytesConserved(t: FlowTable, ks: seq<FlowKey>)
    ensures EmittedBytes(Flows(t, ks)) % TWO_TO_THE_64 == TableBytes(t, ks) % TWO_TO_THE_64
  {
    if ks == [] {
    } else {
      var k, before := ks[|ks| - 1], ks[..|ks| - 1];
      BytesConserved(t, before);
      if k in t {
        var flow := FlowOf(k, t[k].value);
        assert (Flows(t, before) + [flow])[..|Flows(t, before)|] == Flows(t, before);
        assert Flows(t, before) + [] == Flows(t, before);
        assert EmittedBytes(Flows(t, ks)) == EmittedBytes(Flows(t, before)) + flow.bytes;
        AddBoth(EmittedBytes(Flows(t, before)), TableBytes(t, before), SumBytes(t[k].value));
      } else {
        assert Flows(t, before) + [] == Flows(t, before);
      }
    }
  }

  lemma AddBoth(a: nat, b: nat, c: nat)
    requires a % TWO_TO_THE_64 == b % TWO_TO_THE_64
    ensures (a + c % TWO_TO_THE_64) % TWO_TO_THE_64 == (b + c) % TWO_TO_THE_64
  {
    AddModulo(c, a);
    AddModulo(a, c);
    AddModulo(b, c);
  }
}
