/** Clustering NUMA nodes into SCCLs by distance, and the inverse map. */
module NumaClusters {
  import opened Sequences
  import opened Sorting

  const FAR: int := 999
  const NEAR_LIMIT: int := 15

  type Distances = map<int, map<int, int>>

  function Distance(d: Distances, a: int, b: int): int {
    if a in d && b in d[a] then d[a][b] else FAR
  }

  predicate Near(d: Distances, leader: int, n: int) {
    Distance(d, leader, n) <= NEAR_LIMIT
  }

  /** Nodes are near at a distance of 15 at most; a pair without an entry is 999 apart. */
  lemma NearIff(d: Distances, leader: int, n: int)
    ensures Near(d, leader, n) <==> leader in d && n in d[leader] && d[leader][n] <= 15
    ensures !(leader in d && n in d[leader]) ==> Distance(d, leader, n) == 999
  {
  }

  // ----- The distance table ------------------------------------------------------------------------

  ghost predicate Symmetric(d: Distances) {
    forall a, b | a in d && b in d[a] :: b in d && a in d[b] && d[b][a] == d[a][b]
  }

  function Put(d: Distances, a: int, b: int, dist: int): Distances {
    d[a := (if a in d then d[a] else map[])[b := dist]]
  }

  datatype Entry = Entry(a: int, b: int, dist: int)

  predicate Mentions(e: Entry, x: int, y: int) {
    (e.a == x && e.b == y) || (e.a == y && e.b == x)
  }

  /** The distance given by the last entry for the pair, in either order. */
  function LastMention(es: seq<Entry>, x: int, y: int): int {
    if es == [] then FAR
    else if Mentions(es[|es| - 1], x, y) then es[|es| - 1].dist
    else LastMention(es[..|es| - 1], x, y)
  }

  /** One line of the distance matrix: a node id and the distances in its row. */
  datatype MatrixRow = MatrixRow(id: int, dists: seq<int>)

  function RowEntries(row: MatrixRow): seq<Entry> {
    seq(|row.dists|, i requires 0 <= i < |row.dists| => Entry(row.id, i, row.dists[i]))
  }

  /** Column `i` of the row of node `id` speaks of the pair (id, i). */
  function Entries(rows: seq<MatrixRow>): seq<Entry> {
    if rows == [] then [] else Entries(rows[..|rows| - 1]) + RowEntries(rows[|rows| - 1])
  }

  /** The matrix speaks row by row and column by column ... */
  lemma {:induction false} EntriesSplit(a: seq<MatrixRow>, b: seq<MatrixRow>)
    ensures Entries(a + b) == Entries(a) + Entries(b)
  {
    hide Entries, RowEntries;
    if b == [] {
      NoEntries();
      assert a + b == a && Entries(a) + [] == Entries(a);
    } else {
      var init, last := b[..|b| - 1], b[|b| - 1];
      EntriesSplit(a, init);
      EntriesAppend(init, last);
      EntriesAppend(a + init, last);
      assert b == init + [last] && a + b == (a + init) + [last];
      JoinAssociates(Entries(a), Entries(init), RowEntries(last));
    }
  }

  lemma NoEntries()
    ensures Entries([]) == []
  {
  }

  lemma EntriesAppend(rows: seq<MatrixRow>, row: MatrixRow)
    ensures Entries(rows + [row]) == Entries(rows) + RowEntries(row)
  {
    assert (rows + [row])[..|rows|] == rows;
  }

  lemma EntriesOfOne(row: MatrixRow)
    ensures |Entries([row])| == |row.dists|
    ensures forall i | 0 <= i < |row.dists| :: Entries([row])[i] == Entry(row.id, i, row.dists[i])
  {
    assert [row][..0] == [];
    assert Entries([]) == [];
  }

  /** ... and the last entry for a pair, in either order, decides; without one the pair is 999 apart. */
  lemma {:induction false} LastMentionMeans(es: seq<Entry>, x: int, y: int)
    ensures (forall i | 0 <= i < |es| :: {es[i].a, es[i].b} != {x, y}) ==> LastMention(es, x, y) == 999
    ensures forall i | 0 <= i < |es| && {es[i].a, es[i].b} == {x, y}
              && (forall j | i < j < |es| :: {es[j].a, es[j].b} != {x, y}) :: LastMention(es, x, y) == es[i].dist
  {
    if es == [] {
    } else {
      var n := |es| - 1;
      LastMentionMeans(es[..n], x, y);
      MentionsPair(es[n], x, y);
    }
  }

  lemma MentionsPair(e: Entry, x: int, y: int)
    ensures Mentions(e, x, y) <==> {e.a, e.b} == {x, y}
  {
    if {e.a, e.b} == {x, y} {
      assert e.a in {x, y} && e.b in {x, y} && x in {e.a, e.b} && y in {e.a, e.b};
    }
  }

  ghost predicate Holds(d: Distances, es: seq<Entry>) {
    forall x, y :: Distance(d, x, y) == LastMention(es, x, y)
  }

  lemma PutDistance(d: Distances, a: int, b: int, dist: int, x: int, y: int)
    ensures Distance(Put(d, a, b, dist), x, y) == if x == a && y == b then dist else Distance(d, x, y)
  {
  }

  lemma PutSymmetric(d: Distances, a: int, b: int, dist: int)
    requires Symmetric(d)
    ensures Symmetric(Put(Put(d, a, b, dist), b, a, dist))
  {
  }

  lemma PutBoth(d: Distances, es: seq<Entry>, e: Entry)
    requires Symmetric(d) && Holds(d, es)
    ensures Symmetric(Put(Put(d, e.a, e.b, e.dist), e.b, e.a, e.dist))
    ensures Holds(Put(Put(d, e.a, e.b, e.dist), e.b, e.a, e.dist), es + [e])
  {
    var d' := Put(Put(d, e.a, e.b, e.dist), e.b, e.a, e.dist);
    PutSymmetric(d, e.a, e.b, e.dist);
    hide Distance, Put, Symmetric;
    assert (es + [e])[..|es|] == es;
    forall x, y
      ensures Distance(d', x, y) == LastMention(es + [e], x, y)
    {
      PutDistance(d, e.a, e.b, e.dist, x, y);
      PutDistance(Put(d, e.a, e.b, e.dist), e.b, e.a, e.dist, x, y);
    }
  }

  /** The table holds, for each pair in either order, the last distance the matrix gives; it is symmetric. */
  method ParseNumaDistances(rows: seq<MatrixRow>) returns (d: Distances)
    ensures Symmetric(d)
    ensures forall x, y :: Distance(d, x, y) == LastMention(Entries(rows), x, y)
  {
    d := map[];
    for r := 0 to |rows|
      invariant Symmetric(d) && Holds(d, Entries(rows[..r]))
    {
      var row := rows[r];
      var before := Entries(rows[..r]);
      assert before + RowEntries(row)[..0] == before;
      for i := 0 to |row.dists|
        invariant Symmetric(d) && Holds(d, before + RowEntries(row)[..i])
      {
        PutBoth(d, before + RowEntries(row)[..i], Entry(row.id, i, row.dists[i]));
        assert before + RowEntries(row)[..i + 1] == before + RowEntries(row)[..i] + [Entry(row.id, i, row.dists[i])];
        d := Put(Put(d, row.id, i, row.dists[i]), i, row.id, row.dists[i]);
      }
      assert rows[..r + 1][..r] == rows[..r];
      assert RowEntries(row)[..|row.dists|] == RowEntries(row);
    }
    assert rows[..|rows|] == rows;
  }

  lemma {:induction false} MentionSymmetric(es: seq<Entry>, x: int, y: int)
    ensures LastMention(es, x, y) == LastMention(es, y, x)
  {
    if es == [] {
    } else {
      MentionSymmetric(es[..|es| - 1], x, y);
    }
  }

  lemma {:induction false} LastMentioner(es: seq<Entry>, i: nat) returns (j: nat)
    requires i < |es|
    ensures j < |es| && Mentions(es[j], es[i].a, es[i].b) && LastMention(es, es[i].a, es[i].b) == es[j].dist
  {
    var last := |es| - 1;
    if Mentions(es[last], es[i].a, es[i].b) {
      j := last;
    } else {
      j := LastMentioner(es[..last], i);
    }
  }

  /** No two entries give one pair, in either order, different distances. */
  ghost predicate Agree(es: seq<Entry>) {
    forall i, j | 0 <= i < |es| && 0 <= j < |es| && Mentions(es[j], es[i].a, es[i].b) :: es[j].dist == es[i].dist
  }

  /** The table gives back every entry of the matrix if and only if no two entries disagree. */
  lemma ReadBackIff(es: seq<Entry>, d: Distances)
    requires Holds(d, es)
    ensures (forall i | 0 <= i < |es| :: Distance(d, es[i].a, es[i].b) == es[i].dist) <==> Agree(es)
  {
    hide Distance, LastMention;
    forall i | 0 <= i < |es| && Agree(es)
      ensures Distance(d, es[i].a, es[i].b) == es[i].dist
    {
      var j := LastMentioner(es, i);
    }
    forall i, j | 0 <= i < |es| && 0 <= j < |es| && Mentions(es[j], es[i].a, es[i].b)
      ensures Distance(d, es[i].a, es[i].b) == Distance(d, es[j].a, es[j].b)
    {
      MentionSymmetric(es, es[i].a, es[i].b);
    }
  }

  // ----- Greedy clustering ---------------------------------------------------------------------------

  predicate Ascending(s: seq<int>) {
    forall i, j | 0 <= i < j < |s| :: s[i] < s[j]
  }

  /** Clusters so far: ascending lists of nodes near their leader (the least member), leaders ascending. */
  ghost predicate Leads(d: Distances, cs: seq<seq<int>>) {
    && (forall c | 0 <= c < |cs| :: cs[c] != [] && Ascending(cs[c]))
    && (forall c, m | 0 <= c < |cs| && m in cs[c] :: m == cs[c][0] || Near(d, cs[c][0], m))
    && (forall c, e | 0 <= c < e < |cs| :: cs[c][0] < cs[e][0])
    && (forall c, e, m | 0 <= c < e < |cs| && m in cs[e] :: !Near(d, cs[c][0], m) && m !in cs[c])
  }

  ghost predicate InSome(cs: seq<seq<int>>, n: int) {
    exists c :: 0 <= c < |cs| && n in cs[c]
  }

  const BY_FIRST: (seq<int>, seq<int>) -> bool := (a: seq<int>, b: seq<int>) => a != [] && b != [] && a[0] < b[0]

  function Numbered(cs: seq<seq<int>>): map<int, seq<int>> {
    map c | 0 <= c < |cs| :: cs[c]
  }

  lemma NumberedFromZero(cs: seq<seq<int>>, c: int)
    ensures c in Numbered(cs) <==> 0 <= c < |cs|
    ensures 0 <= c < |cs| ==> Numbered(cs)[c] == cs[c]
  {
  }

  /**
   A clustering of the nodes: ids 0..k-1 in order of their least members; every node in exactly one
   cluster; members near their leader; nobody near the leader of an earlier cluster.
   */
  ghost predicate Clusters(d: Distances, nodes: set<int>, cs: seq<seq<int>>) {
    && Leads(d, cs)
    && forall n :: InSome(cs, n) <==> n in nodes
  }

  lemma AddCluster(d: Distances, cs: seq<seq<int>>, cluster: seq<int>)
    requires Leads(d, cs) && cluster != [] && Ascending(cluster)
    requires forall m | m in cluster :: m == cluster[0] || Near(d, cluster[0], m)
    requires forall c | 0 <= c < |cs| :: cs[c][0] < cluster[0]
    requires forall c, m | 0 <= c < |cs| && m in cluster :: !Near(d, cs[c][0], m) && m !in cs[c]
    ensures Leads(d, cs + [cluster])
    ensures forall n :: InSome(cs + [cluster], n) <==> InSome(cs, n) || n in cluster
  {
    forall n {
      InSomeAppend(cs, cluster, n);
    }
  }

  lemma InSomeAppend(cs: seq<seq<int>>, cluster: seq<int>, n: int)
    ensures InSome(cs + [cluster], n) <==> InSome(cs, n) || n in cluster
  {
    var all := cs + [cluster];
    if n in cluster {
      assert n in all[|cs|];
    }
    if InSome(cs, n) {
      var c :| 0 <= c < |cs| && n in cs[c];
      assert n in all[c];
    }
  }

  lemma SortAscending(s: seq<int>)
    requires Ascending(s)
    ensures Sort(s) == s
  {
    SortSorted(s);
  }

  lemma AppendAscending(s: seq<int>, x: int)
    requires Ascending(s) && forall m | m in s :: m < x
    ensures Ascending(s + [x])
  {
    forall i | 0 <= i < |s|
      ensures s[i] < x
    {
      assert s[i] in s;
    }
  }

  /** The inner loop: the unvisited nodes near the leader, which all come after it. */
  method Gather(d: Distances, ids: seq<int>, at: nat, visited: set<int>) returns (cluster: seq<int>, visited': set<int>)
    requires Ascending(ids) && at < |ids| && ids[at] !in visited && forall k | 0 <= k < at :: ids[k] in visited
    ensures cluster != [] && cluster[0] == ids[at] && Ascending(cluster)
    ensures forall m :: m in cluster <==> m == ids[at] || (m in ids && m !in visited && Near(d, ids[at], m))
    ensures forall m :: m in visited' <==> m in visited || m in cluster
  {
    var nid := ids[at];
    cluster, visited' := [nid], visited + {nid};
    for j := 0 to |ids|
      invariant cluster != [] && cluster[0] == nid && Ascending(cluster)
      invariant forall m :: m in cluster <==> m == nid || (m in ids[..j] && m !in visited && Near(d, nid, m))
      invariant forall m :: m in visited' <==> m in visited || m in cluster
      invariant forall m | m in cluster :: m == nid || exists k :: 0 <= k < j && ids[k] == m
    {
      var other := ids[j];
      assert ids[..j + 1] == ids[..j] + [other];
      if other in visited' {
        continue;
      }
      if Near(d, nid, other) {
        assert at < j;
        AppendAscending(cluster, other);
        cluster, visited' := cluster + [other], visited' + {other};
      }
    }
    assert ids[..|ids|] == ids;
  }

  lemma SortDistinct(keys: seq<int>)
    requires Distinct(keys)
    ensures Ascending(Sort(keys)) && |Sort(keys)| == |keys|
  {
    SortFacts(keys);
    var t := Sort(keys);
    assert |multiset(t)| == |t| && |multiset(keys)| == |keys|;
    forall i, j | 0 <= i < j < |t|
      ensures t[i] < t[j]
    {
      DistinctCounts(keys, t[i]);
      if t[i] == t[j] {
        TwiceCounts(t, i, j);
        assert false;
      }
    }
  }

  lemma NoNodes(d: Distances)
    ensures Numbered([]) == map[] && Clusters(d, {}, [])
  {
  }

  lemma OneNode(d: Distances, n: int)
    ensures Numbered([[n]]) == map[0 := [n]] && Clusters(d, {n}, [[n]])
  {
    hide Near;
    assert [[n]][0] == [n] && [n][0] == n;
    assert InSome([[n]], n);
  }

  lemma FewNodes(keys: seq<int>, d: Distances)
    requires |keys| <= 1
    ensures Sort(keys) == keys
    ensures exists cs ::
              (if keys == [] then map[] else map[0 := keys]) == Numbered(cs) && Clusters(d, Elements(keys), cs)
  {
    hide Numbered, Clusters, Sort;
    SortSorted(keys);
    NoNodes(d);
    if |keys| == 1 {
      assert keys == [keys[0]] && Elements(keys) == {keys[0]};
      OneNode(d, keys[0]);
    } else {
      assert Elements(keys) == {};
    }
  }

  /** The clusters hold exactly the visited nodes, all of the first `i` among them. */
  ghost predicate Holding(d: Distances, ids: seq<int>, i: nat, visited: set<int>, cs: seq<seq<int>>) {
    && i <= |ids| && Ascending(ids) && Leads(d, cs)
    && (forall n :: InSome(cs, n) <==> n in visited)
    && (forall n | n in visited :: n in ids)
    && (forall k | 0 <= k < i :: ids[k] in visited)
  }

  /** Leaders come from the first `i` nodes, and nobody unvisited is near one. */
  ghost predicate Settled(d: Distances, ids: seq<int>, i: nat, visited: set<int>, cs: seq<seq<int>>) {
    && (forall c | 0 <= c < |cs| :: cs[c] != [] && cs[c][0] in ids[..if i <= |ids| then i else |ids|])
    && (forall c, n | 0 <= c < |cs| && n in ids && n !in visited :: !Near(d, cs[c][0], n))
  }

  /** The outer loop after `i` nodes. */
  ghost predicate Progress(d: Distances, ids: seq<int>, i: nat, visited: set<int>, cs: seq<seq<int>>) {
    Holding(d, ids, i, visited, cs) && Settled(d, ids, i, visited, cs)
  }

  lemma ProgressSkips(d: Distances, ids: seq<int>, i: nat, visited: set<int>, cs: seq<seq<int>>)
    requires Progress(d, ids, i, visited, cs) && i < |ids| && ids[i] in visited
    ensures Progress(d, ids, i + 1, visited, cs)
  {
  }

  ghost predicate Gathered(d: Distances, ids: seq<int>, i: nat, visited: set<int>,
                           cluster: seq<int>, visited': set<int>)
  {
    && i < |ids| && ids[i] !in visited
    && cluster != [] && cluster[0] == ids[i] && Ascending(cluster)
    && (forall m :: m in cluster <==> m == ids[i] || (m in ids && m !in visited && Near(d, ids[i], m)))
    && (forall m :: m in visited' <==> m in visited || m in cluster)
  }

  lemma AddHolds(d: Distances, ids: seq<int>, i: nat, visited: set<int>, cs: seq<seq<int>>, cluster: seq<int>,
          visited': set<int>)
    requires Progress(d, ids, i, visited, cs) && Gathered(d, ids, i, visited, cluster, visited')
    ensures Holding(d, ids, i + 1, visited', cs + [cluster])
  {
    forall c | 0 <= c < |cs|
      ensures cs[c][0] < cluster[0]
    {
      var k :| 0 <= k < i && cs[c][0] == ids[k];
    }
    forall c, m | 0 <= c < |cs| && m in cluster
      ensures !Near(d, cs[c][0], m) && m !in cs[c]
    {
      assert m in ids && m !in visited;
      assert m in cs[c] ==> InSome(cs, m);
    }
    AddCluster(d, cs, cluster);
  }

  lemma AddSettles(d: Distances, ids: seq<int>, i: nat, visited: set<int>, cs: seq<seq<int>>, cluster: seq<int>,
          visited': set<int>)
    requires Settled(d, ids, i, visited, cs) && Gathered(d, ids, i, visited, cluster, visited')
    ensures Settled(d, ids, i + 1, visited', cs + [cluster])
  {
    hide Near;
    var all := cs + [cluster];
    assert ids[..i + 1] == ids[..i] + [ids[i]];
    forall c, n | 0 <= c < |all| && n in ids && n !in visited'
      ensures !Near(d, all[c][0], n)
    {
      if c < |cs| {
        assert all[c] == cs[c];
      }
    }
    forall c | 0 <= c < |all|
      ensures all[c] != [] && all[c][0] in ids[..i + 1]
    {
      if c < |cs| {
        assert all[c] == cs[c];
      }
    }
  }

  lemma ProgressDone(d: Distances, ids: seq<int>, visited: set<int>, cs: seq<seq<int>>)
    requires Progress(d, ids, |ids|, visited, cs)
    ensures Clusters(d, Elements(ids), cs) && SortBy(cs, BY_FIRST) == cs
  {
    assert SortedBy(cs, BY_FIRST);
    SortBySorted(cs, BY_FIRST);
  }

  /** The clusters, numbered by their least members. */
  method ScclToNumaIds(keys: seq<int>, d: Distances) returns (result: map<int, seq<int>>)
    requires Distinct(keys)
    ensures exists cs :: result == Numbered(cs) && Clusters(d, Elements(keys), cs)
    ensures keys == [] ==> result == map[]
    ensures |keys| == 1 ==> result == map[0 := keys]
  {
    hide Holding, Settled, Clusters;
    var ids := Sort(keys);
    SortFacts(keys);
    SortDistinct(keys);
    if |ids| <= 1 {
      result := if ids == [] then map[] else map[0 := ids];
      FewNodes(keys, d);
      return;
    }
    var visited: set<int> := {};
    var clusters: seq<seq<int>> := [];
    ProgressStarts(d, ids);
    for i := 0 to |ids|
      invariant Progress(d, ids, i, visited, clusters)
    {
      if ids[i] in visited {
        ProgressSkips(d, ids, i, visited, clusters);
      } else {
        ProgressVisited(d, ids, i, visited, clusters);
        var cluster, visited' := Gather(d, ids, i, visited);
        SortAscending(cluster);
        AddHolds(d, ids, i, visited, clusters, cluster, visited');
        AddSettles(d, ids, i, visited, clusters, cluster, visited');
        clusters, visited := clusters + [Sort(cluster)], visited';
      }
    }
    ProgressDone(d, ids, visited, clusters);
    SameClusters(d, ids, keys, clusters);
    clusters := SortBy(clusters, BY_FIRST);
    result := Numbered(clusters);
  }

  lemma ProgressStarts(d: Distances, ids: seq<int>)
    requires Ascending(ids)
    ensures Progress(d, ids, 0, {}, [])
  {
  }

  lemma ProgressVisited(d: Distances, ids: seq<int>, i: nat, visited: set<int>, cs: seq<seq<int>>)
    requires Progress(d, ids, i, visited, cs)
    ensures forall k | 0 <= k < i :: ids[k] in visited
  {
  }

  lemma SameClusters(d: Distances, ids: seq<int>, keys: seq<int>, cs: seq<seq<int>>)
    requires Clusters(d, Elements(ids), cs) && forall n :: n in ids <==> n in keys
    ensures Clusters(d, Elements(keys), cs)
  {
  }

  /** Under a symmetric table two leaders are far apart in both directions. */
  lemma LeadersApart(d: Distances, keys: seq<int>, cs: seq<seq<int>>, c: nat, e: nat)
    requires Symmetric(d) && Clusters(d, Elements(keys), cs) && c < |cs| && e < |cs| && c != e
    ensures !Near(d, cs[c][0], cs[e][0])
  {
    assert cs[c][0] in cs[c] && cs[e][0] in cs[e];
    assert Distance(d, cs[c][0], cs[e][0]) == Distance(d, cs[e][0], cs[c][0]);
  }

  // ----- The clustering is determined ------------------------------------------------------------------

  lemma LeaderIsLeast(d: Distances, nodes: set<int>, cs: seq<seq<int>>, n: int)
    requires Clusters(d, nodes, cs) && cs != [] && n in nodes
    ensures cs[0][0] <= n
  {
    assert InSome(cs, n);
    var c :| 0 <= c < |cs| && n in cs[c];
    var k :| 0 <= k < |cs[c]| && cs[c][k] == n;
    assert cs[c][0] <= cs[c][k];
  }

  /** The first cluster is the least node and whoever is near it. */
  lemma FirstCluster(d: Distances, nodes: set<int>, cs: seq<seq<int>>, n: int)
    requires Clusters(d, nodes, cs) && cs != []
    ensures n in cs[0] <==> n in nodes && (n == cs[0][0] || Near(d, cs[0][0], n))
  {
    assert cs[0][0] in cs[0];
    if n in cs[0] {
      assert InSome(cs, n);
    }
    if n in nodes && n !in cs[0] {
      assert InSome(cs, n);
      var c :| 0 <= c < |cs| && n in cs[c];
      assert cs[0][0] !in cs[c] || c == 0;
    }
  }

  lemma OtherClusters(d: Distances, nodes: set<int>, cs: seq<seq<int>>)
    requires Clusters(d, nodes, cs) && cs != []
    ensures Clusters(d, nodes - Elements(cs[0]), cs[1..])
  {
    forall n
      ensures InSome(cs[1..], n) <==> n in nodes && n !in cs[0]
    {
      if InSome(cs[1..], n) {
        var c :| 0 <= c < |cs[1..]| && n in cs[1..][c];
        assert n in cs[c + 1];
        assert InSome(cs, n);
      }
      if n in nodes && n !in cs[0] {
        assert InSome(cs, n);
        var c :| 0 <= c < |cs| && n in cs[c];
        assert n in cs[1..][c - 1];
      }
    }
  }

  lemma HeadIn(s: seq<int>)
    ensures s != [] ==> s[0] in s
  {
  }

  lemma {:induction false} AscendingUnique(a: seq<int>, b: seq<int>)
    requires Ascending(a) && Ascending(b) && forall n :: n in a <==> n in b
    ensures a == b
    decreases |a|
  {
    if a == [] {
      HeadIn(b);
    } else {
      assert a[0] in a;
      assert b[0] in b;
      var i :| 0 <= i < |b| && b[i] == a[0];
      var j :| 0 <= j < |a| && a[j] == b[0];
      forall n
        ensures n in a[1..] <==> n in b[1..]
      {
        assert n in a[1..] <==> n in a && n != a[0];
        assert n in b[1..] <==> n in b && n != b[0];
      }
      AscendingUnique(a[1..], b[1..]);
    }
  }

  /** There is only one such clustering, so any clustering with these properties is the greedy one. */
  lemma {:induction false} ClusteringUnique(d: Distances, nodes: set<int>, a: seq<seq<int>>, b: seq<seq<int>>)
    requires Clusters(d, nodes, a) && Clusters(d, nodes, b)
    ensures a == b
    decreases |a|
  {
    if a == [] || b == [] {
      FirstNode(d, nodes, a);
      FirstNode(d, nodes, b);
    } else {
      FirstNode(d, nodes, a);
      FirstNode(d, nodes, b);
      LeaderIsLeast(d, nodes, a, b[0][0]);
      LeaderIsLeast(d, nodes, b, a[0][0]);
      forall n
        ensures n in a[0] <==> n in b[0]
      {
        FirstCluster(d, nodes, a, n);
        FirstCluster(d, nodes, b, n);
      }
      AscendingUnique(a[0], b[0]);
      OtherClusters(d, nodes, a);
      OtherClusters(d, nodes, b);
      ClusteringUnique(d, nodes - Elements(a[0]), a[1..], b[1..]);
    }
  }

  lemma FirstNode(d: Distances, nodes: set<int>, cs: seq<seq<int>>)
    requires Clusters(d, nodes, cs)
    ensures if cs == [] then nodes == {} else cs[0] != [] && cs[0][0] in nodes
  {
    if cs == [] {
      forall n
        ensures n !in nodes
      {
        assert InSome(cs, n) <==> n in nodes;
      }
    } else {
      assert cs[0][0] in cs[0];
      assert InSome(cs, cs[0][0]);
    }
  }

  /** The inverse map: a node's entry is the one cluster that holds it, and only nodes have entries. */
  method BuildNumaToScclMap(cs: seq<seq<int>>) returns (result: map<int, int>)
    requires forall c, e, m | 0 <= c < e < |cs| && m in cs[e] :: m !in cs[c]
    ensures forall c, n | 0 <= c < |cs| && n in cs[c] :: n in result && result[n] == c
    ensures forall n | n in result :: 0 <= result[n] < |cs| && n in cs[result[n]]
  {
    result := map[];
    for c := 0 to |cs|
      invariant forall k, n | 0 <= k < c && n in cs[k] :: n in result && result[n] == k
      invariant forall n | n in result :: 0 <= result[n] < c && n in cs[result[n]]
    {
      for i := 0 to |cs[c]|
        invariant forall k, n | 0 <= k < c && n in cs[k] :: n in result && result[n] == k
        invariant forall n | n in cs[c][..i] :: n in result && result[n] == c
        invariant forall n | n in result :: 0 <= result[n] <= c && n in cs[result[n]]
      {
        assert cs[c][..i + 1] == cs[c][..i] + [cs[c][i]];
        result := result[cs[c][i] := c];
      }
      assert cs[c][..|cs[c]|] == cs[c];
    }
  }
}
