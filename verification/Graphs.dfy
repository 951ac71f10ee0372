/** The topology graph: node and edge lists, the id indexes kept beside them, and merging. */
module Graphs {
  import opened Options
  import opened Grouping
  import opened Sequences
  import Edges

  datatype Node = Node(gid: int, info: int)
  datatype Link = Link(gid: int, ends: seq<Node>, edge: Edges.Edge)

  /** A dictionary in insertion order; storing to a present key keeps its place and takes the new value. */
  type Dict<V> = Frame<int, V>

  function LastWins<V>(): (V, V) -> V {
    (a: V, b: V) => b
  }

  predicate Has<V>(d: Dict<V>, k: int) {
    IndexOf(d, k) < |d|
  }

  function Values<V>(d: Dict<V>): seq<V> {
    seq(|d|, i requires 0 <= i < |d| => d[i].1)
  }

  function NodePairs(nodes: seq<Node>): Dict<Node> {
    seq(|nodes|, i requires 0 <= i < |nodes| => (nodes[i].gid, nodes[i]))
  }

  function LinkPairs(links: seq<Link>): Dict<Link> {
    seq(|links|, i requires 0 <= i < |links| => (links[i].gid, links[i]))
  }

  /** Nodes not in the dictionary yet are appended, in order. */
  function AddMissing(d: Dict<Node>, nodes: seq<Node>): Dict<Node> {
    if nodes == [] then d
    else
      var before, n := AddMissing(d, nodes[..|nodes| - 1]), nodes[|nodes| - 1];
      if Has(before, n.gid) then before else before + [(n.gid, n)]
  }

  function AllEnds(links: seq<Link>): seq<Node> {
    if links == [] then [] else AllEnds(links[..|links| - 1]) + links[|links| - 1].ends
  }

  function BuildNodes(nodes: seq<Node>, links: seq<Link>): Dict<Node> {
    AddMissing(Group(NodePairs(nodes), LastWins()), AllEnds(links))
  }

  function BuildLinks(links: seq<Link>): Dict<Link> {
    Group(LinkPairs(links), LastWins())
  }

  // ----- Keys and values of the dictionaries ---------------------------------------------------------

  lemma HasMeans<V>(d: Dict<V>, k: int)
    ensures Has(d, k) <==> exists i :: 0 <= i < |d| && d[i].0 == k
  {
  }

  lemma GroupHas<V>(rows: Dict<V>, k: int)
    ensures UniqueKeys(Group(rows, LastWins()))
    ensures Has(Group(rows, LastWins()), k) <==> Has(rows, k)
    ensures Has(rows, k) ==>
              var d := Group(rows, LastWins()); Fold(rows, k, LastWins()) == Some(d[IndexOf(d, k)].1)
  {
    GroupFolds(rows, k, LastWins());
    FoldAbsent(rows, k, LastWins());
    FoldAbsent(Group(rows, LastWins()), k, LastWins());
    if Has(rows, k) {
      FoldUnique(Group(rows, LastWins()), IndexOf(Group(rows, LastWins()), k), LastWins());
    }
  }

  /** Folding with "last wins" is the last row of the key. */
  lemma {:induction false} FoldIsLast<V>(rows: Dict<V>, i: nat, k: int)
    requires i < |rows| && rows[i].0 == k && forall j | i < j < |rows| :: rows[j].0 != k
    ensures Fold(rows, k, LastWins()) == Some(rows[i].1)
  {
    if i == |rows| - 1 {
    } else {
      FoldIsLast(rows[..|rows| - 1], i, k);
    }
  }

  function NodeId(): Node -> int { (n: Node) => n.gid }
  function LinkId(): Link -> int { (l: Link) => l.gid }

  /** A dictionary whose keys are the ids of its values. */
  ghost predicate Keyed<V>(d: Dict<V>, id: V -> int) {
    forall i | 0 <= i < |d| :: d[i].0 == id(d[i].1)
  }

  lemma {:induction false} GroupKeyed<V>(rows: Dict<V>, id: V -> int)
    requires Keyed(rows, id)
    ensures Keyed(Group(rows, LastWins()), id) && UniqueKeys(Group(rows, LastWins()))
  {
    UniqueGroup(rows, LastWins());
    if rows == [] {
    } else {
      GroupKeyed(rows[..|rows| - 1], id);
    }
  }

  lemma AddOne(d: Dict<Node>, n: Node)
    requires UniqueKeys(d) && Keyed(d, NodeId()) && !Has(d, n.gid)
    ensures UniqueKeys(d + [(n.gid, n)]) && Keyed(d + [(n.gid, n)], NodeId())
    ensures forall k :: Has(d + [(n.gid, n)], k) <==> Has(d, k) || k == n.gid
  {
    var d' := d + [(n.gid, n)];
    forall k
      ensures Has(d', k) <==> Has(d, k) || k == n.gid
    {
      HasMeans(d', k);
      HasMeans(d, k);
      if Has(d, k) {
        var i :| 0 <= i < |d| && d[i].0 == k;
        assert d'[i].0 == k;
      }
      assert d'[|d|].0 == n.gid;
    }
  }

  /** Adding what is missing keeps everything, in place, and adds exactly the new ids. */
  lemma {:induction false} AddMissingFacts(d: Dict<Node>, nodes: seq<Node>)
    requires UniqueKeys(d) && Keyed(d, NodeId())
    ensures UniqueKeys(AddMissing(d, nodes)) && Keyed(AddMissing(d, nodes), NodeId())
    ensures d <= AddMissing(d, nodes)
    ensures forall k :: Has(AddMissing(d, nodes), k) <==> Has(d, k) || InNodes(nodes, k)
  {
    if nodes == [] {
      assert forall k :: !InNodes(nodes, k);
    } else {
      var init, n := nodes[..|nodes| - 1], nodes[|nodes| - 1];
      AddMissingFacts(d, init);
      var before := AddMissing(d, init);
      if !Has(before, n.gid) {
        AddOne(before, n);
      }
      hide Has;
      assert nodes == init + [n];
      forall k
        ensures InNodes(nodes, k) <==> InNodes(init, k) || k == n.gid
      {
        InNodesAppend(init, n, k);
      }
    }
  }

  lemma AddMissingStep(d: Dict<Node>, nodes: seq<Node>, n: Node)
    ensures var before := AddMissing(d, nodes);
            AddMissing(d, nodes + [n]) == if Has(before, n.gid) then before else before + [(n.gid, n)]
    ensures AddMissing(d, []) == d
  {
    assert (nodes + [n])[..|nodes|] == nodes;
  }

  lemma InNodesAppend(nodes: seq<Node>, n: Node, k: int)
    ensures InNodes(nodes + [n], k) <==> InNodes(nodes, k) || k == n.gid
  {
    if InNodes(nodes, k) {
      var i :| 0 <= i < |nodes| && nodes[i].gid == k;
      assert (nodes + [n])[i].gid == k;
    }
    assert (nodes + [n])[|nodes|] == n;
  }

  ghost predicate InNodes(nodes: seq<Node>, k: int) {
    exists i :: 0 <= i < |nodes| && nodes[i].gid == k
  }

  ghost predicate InLinks(links: seq<Link>, k: int) {
    exists i :: 0 <= i < |links| && links[i].gid == k
  }

  lemma PairsHave(nodes: seq<Node>, links: seq<Link>, k: int)
    ensures Has(NodePairs(nodes), k) <==> InNodes(nodes, k)
    ensures Has(LinkPairs(links), k) <==> InLinks(links, k)
    ensures Keyed(NodePairs(nodes), NodeId()) && Keyed(LinkPairs(links), LinkId())
  {
    HasMeans(NodePairs(nodes), k);
    HasMeans(LinkPairs(links), k);
    if InNodes(nodes, k) {
      var i :| 0 <= i < |nodes| && nodes[i].gid == k;
      assert NodePairs(nodes)[i].0 == k;
    }
    if InLinks(links, k) {
      var i :| 0 <= i < |links| && links[i].gid == k;
      assert LinkPairs(links)[i].0 == k;
    }
  }

  /** The node ids of a built graph: the listed ones and every endpoint's. */
  lemma BuildNodesFacts(nodes: seq<Node>, links: seq<Link>, k: int)
    ensures UniqueKeys(BuildNodes(nodes, links)) && Keyed(BuildNodes(nodes, links), NodeId())
    ensures Has(BuildNodes(nodes, links), k) <==> InNodes(nodes, k) || InNodes(AllEnds(links), k)
  {
    PairsHave(nodes, links, k);
    GroupKeyed(NodePairs(nodes), NodeId());
    GroupHas(NodePairs(nodes), k);
    AddMissingFacts(Group(NodePairs(nodes), LastWins()), AllEnds(links));
  }

  lemma BuildLinksFacts(links: seq<Link>, k: int)
    ensures UniqueKeys(BuildLinks(links)) && Keyed(BuildLinks(links), LinkId())
    ensures Has(BuildLinks(links), k) <==> InLinks(links, k)
  {
    PairsHave([], links, k);
    GroupKeyed(LinkPairs(links), LinkId());
    GroupHas(LinkPairs(links), k);
  }

  /** Where one id is listed twice, the later node or edge is kept. */
  lemma LastIsKept(links: seq<Link>, i: nat)
    requires i < |links| && forall j | i < j < |links| :: links[j].gid != links[i].gid
    ensures var d := BuildLinks(links); Has(d, links[i].gid) && d[IndexOf(d, links[i].gid)].1 == links[i]
  {
    var rows, k := LinkPairs(links), links[i].gid;
    PairsHave([], links, k);
    GroupHas(rows, k);
    FoldIsLast(rows, i, k);
  }

  /** The entry of a key that is present. */
  function At<V>(d: Dict<V>, k: int): V
    requires Has(d, k)
  {
    d[IndexOf(d, k)].1
  }

  /** A link that all listed links of its id equal is the one in the graph. */
  lemma SoleIsKept(links: seq<Link>, l: Link)
    requires l in links && forall m | m in links && m.gid == l.gid :: m == l
    ensures var d := BuildLinks(links); Has(d, l.gid) && At(d, l.gid) == l
  {
    var i :| 0 <= i < |links| && links[i] == l;
    var j := LastIndex(links, l.gid);
    assert links[j] in links;
    LastIsKept(links, j);
  }

  /** The kept node of an id is the last one listed ... */
  lemma LastNodeIsKept(nodes: seq<Node>, links: seq<Link>, i: nat)
    requires i < |nodes| && forall j | i < j < |nodes| :: nodes[j].gid != nodes[i].gid
    ensures var d := BuildNodes(nodes, links); Has(d, nodes[i].gid) && At(d, nodes[i].gid) == nodes[i]
  {
    var rows, k := NodePairs(nodes), nodes[i].gid;
    PairsHave(nodes, [], k);
    GroupKeyed(rows, NodeId());
    GroupHas(rows, k);
    FoldIsLast(rows, i, k);
    var d, d' := Group(rows, LastWins()), BuildNodes(nodes, links);
    AddMissingFacts(d, AllEnds(links));
    assert d'[IndexOf(d, k)].0 == k;
    SameKeySameIndex(d', IndexOf(d, k), IndexOf(d', k));
  }

  lemma SameKeySameIndex<V>(d: Dict<V>, i: nat, j: nat)
    requires UniqueKeys(d) && i < |d| && j < |d| && d[i].0 == d[j].0
    ensures i == j
  {
  }

  /** ... and of an id that is not listed, the endpoint that comes first. */
  lemma FirstEndIsKept(nodes: seq<Node>, links: seq<Link>, i: nat)
    requires i < |AllEnds(links)| && forall j | 0 <= j < |nodes| :: nodes[j].gid != AllEnds(links)[i].gid
    requires forall j | 0 <= j < i :: AllEnds(links)[j].gid != AllEnds(links)[i].gid
    ensures var d, n := BuildNodes(nodes, links), AllEnds(links)[i]; Has(d, n.gid) && At(d, n.gid) == n
  {
    var rows, n := NodePairs(nodes), AllEnds(links)[i];
    PairsHave(nodes, [], n.gid);
    GroupKeyed(rows, NodeId());
    GroupHas(rows, n.gid);
    FirstMissingIsKept(Group(rows, LastWins()), AllEnds(links), i);
  }

  lemma {:induction false} FirstMissingIsKept(d: Dict<Node>, nodes: seq<Node>, i: nat)
    requires UniqueKeys(d) && Keyed(d, NodeId()) && i < |nodes| && !Has(d, nodes[i].gid)
    requires forall j | 0 <= j < i :: nodes[j].gid != nodes[i].gid
    ensures var d', k := AddMissing(d, nodes), nodes[i].gid; Has(d', k) && At(d', k) == nodes[i]
  {
    var init, k := nodes[..|nodes| - 1], nodes[i].gid;
    AddMissingFacts(d, init);
    AddMissingFacts(d, nodes);
    var before, d' := AddMissing(d, init), AddMissing(d, nodes);
    if i < |init| {
      FirstMissingIsKept(d, init, i);
      assert before <= d' && d'[IndexOf(before, k)] == before[IndexOf(before, k)];
      SameKeySameIndex(d', IndexOf(before, k), IndexOf(d', k));
    } else {
      assert !InNodes(init, k);
      assert d' == before + [(k, nodes[i])];
      SameKeySameIndex(d', |before|, IndexOf(d', k));
    }
  }

  /** Endpoints are taken edge by edge. */
  lemma {:induction false} AllEndsSplits(a: seq<Link>, b: seq<Link>)
    ensures AllEnds(a + b) == AllEnds(a) + AllEnds(b)
  {
    hide AllEnds;
    if b == [] {
      NoEnds();
      assert a + b == a && AllEnds(a) + [] == AllEnds(a);
    } else {
      var init, last := b[..|b| - 1], b[|b| - 1];
      AllEndsSplits(a, init);
      AllEndsAppend(init, last);
      AllEndsAppend(a + init, last);
      assert b == init + [last] && a + b == (a + init) + [last];
      JoinAssociates(AllEnds(a), AllEnds(init), last.ends);
    }
  }

  lemma NoEnds()
    ensures AllEnds([]) == []
  {
  }

  lemma AllEndsAppend(links: seq<Link>, l: Link)
    ensures AllEnds(links + [l]) == AllEnds(links) + l.ends
  {
    assert (links + [l])[..|links|] == links;
  }

  lemma AllEndsOne(l: Link)
    ensures AllEnds([l]) == l.ends
  {
    assert [l][..0] == [];
    assert AllEnds([]) == [];
  }

  lemma {:induction false} BuiltLinksListed(links: seq<Link>, i: nat)
    requires i < |BuildLinks(links)|
    ensures BuildLinks(links)[i].1 in links
  {
    var d := BuildLinks(links);
    var k := d[i].0;
    BuildLinksFacts(links, k);
    HasMeans(d, k);
    HasMeans(LinkPairs(links), k);
    PairsHave([], links, k);
    assert IndexOf(d, k) == i;
    var j := LastIndex(links, k);
    LastIsKept(links, j);
  }

  lemma LastIndex(links: seq<Link>, k: int) returns (j: nat)
    requires InLinks(links, k)
    ensures j < |links| && links[j].gid == k && forall i | j < i < |links| :: links[i].gid != k
  {
    j := |links| - 1;
    while links[j].gid != k
      invariant j < |links| && forall i | j < i < |links| :: links[i].gid != k
      decreases j
    {
      var i :| 0 <= i < |links| && links[i].gid == k;
      j := j - 1;
    }
  }

  // ----- The graph -------------------------------------------------------------------------------------

  function MergeLink(a: Link, b: Link): Link {
    a.(edge := Edges.Merge(a.edge, b.edge))
  }

  function StoreLink(d: Dict<Link>, l: Link, merge: bool): Dict<Link> {
    var i := IndexOf(d, l.gid);
    if i == |d| then d + [(l.gid, l)]
    else if merge then d[i := (l.gid, MergeLink(d[i].1, l))]
    else d
  }

  /** The whole value of a graph: its two dictionaries; the lists are their values. */
  datatype View = View(nodes: Dict<Node>, links: Dict<Link>)

  ghost predicate Sound(v: View) {
    && UniqueKeys(v.nodes) && Keyed(v.nodes, NodeId())
    && UniqueKeys(v.links) && Keyed(v.links, LinkId())
    && forall i, n | 0 <= i < |v.links| && n in v.links[i].1.ends :: Has(v.nodes, n.gid)
  }

  function Build(nodes: seq<Node>, links: seq<Link>): View {
    View(BuildNodes(nodes, links), BuildLinks(links))
  }

  lemma {:induction false} AllEndsHas(links: seq<Link>, l: Link, n: Node)
    requires l in links && n in l.ends
    ensures InNodes(AllEnds(links), n.gid)
  {
    var init, last := links[..|links| - 1], links[|links| - 1];
    if l == last {
      var i :| 0 <= i < |l.ends| && l.ends[i] == n;
      assert AllEnds(links)[|AllEnds(init)| + i] == n;
    } else {
      AllEndsHas(init, l, n);
      var i :| 0 <= i < |AllEnds(init)| && AllEnds(init)[i].gid == n.gid;
      assert AllEnds(links)[i] == AllEnds(init)[i];
    }
  }

  /** Construction yields distinct ids, exact indexes, and every endpoint present. */
  lemma BuildSound(nodes: seq<Node>, links: seq<Link>)
    ensures Sound(Build(nodes, links))
  {
    BuildNodesFacts(nodes, links, 0);
    BuildLinksFacts(links, 0);
    var v := Build(nodes, links);
    forall i, n | 0 <= i < |v.links| && n in v.links[i].1.ends
      ensures Has(v.nodes, n.gid)
    {
      BuiltLinksListed(links, i);
      AllEndsHas(links, v.links[i].1, n);
      BuildNodesFacts(nodes, links, n.gid);
    }
  }

  function AddNode(v: View, n: Node): View {
    v.(nodes := AddMissing(v.nodes, [n]))
  }

  function AddLink(v: View, l: Link, merge: bool): View {
    View(AddMissing(v.nodes, l.ends), StoreLink(v.links, l, merge))
  }

  lemma AddNodeSound(v: View, n: Node)
    requires Sound(v)
    ensures Sound(AddNode(v, n))
  {
    AddMissingFacts(v.nodes, [n]);
  }

  lemma AddLinkSound(v: View, l: Link, merge: bool)
    requires Sound(v)
    ensures Sound(AddLink(v, l, merge))
  {
    AddMissingFacts(v.nodes, l.ends);
    var v' := AddLink(v, l, merge);
    var at := IndexOf(v.links, l.gid);
    forall i, n | 0 <= i < |v'.links| && n in v'.links[i].1.ends
      ensures Has(v'.nodes, n.gid)
    {
      if i < |v.links| {
        assert n in v.links[i].1.ends;
      } else {
        var k :| 0 <= k < |l.ends| && l.ends[k] == n;
        assert l.ends[k].gid == n.gid;
      }
    }
  }

  // ----- Runs of additions -------------------------------------------------------------------------------

  /** What the graph's edge of this id weighs; no edge, no weight. */
  function Weigh(v: View, k: int): real {
    if Has(v.links, k) then Edges.Weight(v.links[IndexOf(v.links, k)].1.edge.weight) else 0.0
  }

  /** Adding an edge adds its id and its endpoints' and nothing else, and its weight if it is new or merged. */
  lemma AddLinkExact(v: View, l: Link, merge: bool, k: int)
    requires Sound(v)
    ensures var v' := AddLink(v, l, merge);
            && (Has(v'.links, k) <==> Has(v.links, k) || k == l.gid)
            && (Has(v'.nodes, k) <==> Has(v.nodes, k) || InNodes(l.ends, k))
            && v.nodes <= v'.nodes
            && Weigh(v', k) == Weigh(v, k)
                 + if k == l.gid && (merge || !Has(v.links, k)) then Edges.Weight(l.edge.weight) else 0.0
  {
    AddMissingFacts(v.nodes, l.ends);
    StoredAt(v.links, l, merge, k);
  }

  /**
   What is then held under every id: a new edge as it is; under its own id, with merging, the old edge
   with the new one's weight and traffic merged into it; and else what was held before.
   */
  lemma AddLinkAt(v: View, l: Link, merge: bool, k: int)
    requires Sound(v)
    ensures Has(AddLink(v, l, merge).links, k) <==> Has(v.links, k) || k == l.gid
    ensures Has(v.links, k) && (k != l.gid || !merge) ==> At(AddLink(v, l, merge).links, k) == At(v.links, k)
    ensures !Has(v.links, k) && k == l.gid ==> At(AddLink(v, l, merge).links, k) == l
    ensures Has(v.links, k) && k == l.gid && merge ==>
              var old', new' := At(v.links, k), At(AddLink(v, l, merge).links, k);
              new'.gid == k && new'.ends == old'.ends && new'.edge == Edges.Merge(old'.edge, l.edge)
    ensures AddLink(v, l, merge).nodes == AddMissing(v.nodes, l.ends)
  {
    StoredAt(v.links, l, merge, k);
  }

  /** Adding a node appends it if its id is new, and changes nothing if it is not; no edge is touched. */
  lemma AddNodeAt(v: View, n: Node)
    ensures AddNode(v, n).links == v.links
    ensures Has(v.nodes, n.gid) ==> AddNode(v, n).nodes == v.nodes
    ensures !Has(v.nodes, n.gid) ==> AddNode(v, n).nodes == v.nodes + [(n.gid, n)]
  {
    AddMissingStep(v.nodes, [], n);
    assert [] + [n] == [n];
  }

  /** Storing an edge moves no entry; a new one goes to the end. */
  lemma StoredAt(d: Dict<Link>, l: Link, merge: bool, k: int)
    ensures IndexOf(StoreLink(d, l, merge), k) ==
            if Has(d, k) || k == l.gid then IndexOf(d, k) else IndexOf(d, k) + |StoreLink(d, l, merge)| - |d|
  {
    var d' := StoreLink(d, l, merge);
    var i, at := IndexOf(d', k), IndexOf(d, k);
    assert forall j | 0 <= j < |d| :: d'[j].0 == d[j].0;
    assert at < |d| ==> d'[at].0 == k;
    assert |d'| > |d| ==> d'[|d|].0 == l.gid;
    assert i < |d| ==> d[i].0 == k;
  }

  datatype Op = PutNode(n: Node) | PutLink(l: Link, merge: bool)

  function Put(v: View, op: Op): View {
    match op
    case PutNode(n) => AddNode(v, n)
    case PutLink(l, merge) => AddLink(v, l, merge)
  }

  function PutAll(v: View, ops: seq<Op>): View {
    if ops == [] then v else Put(PutAll(v, ops[..|ops| - 1]), ops[|ops| - 1])
  }

  /** The weights of the edges of one id among the operations. */
  function WeightPut(ops: seq<Op>, k: int): real {
    if ops == [] then 0.0
    else
      var op := ops[|ops| - 1];
      WeightPut(ops[..|ops| - 1], k) + if op.PutLink? && op.l.gid == k then Edges.Weight(op.l.edge.weight) else 0.0
  }

  /** Any run of additions from a constructed graph keeps it sound. */
  lemma {:induction false} RunSound(nodes: seq<Node>, links: seq<Link>, ops: seq<Op>)
    ensures Sound(PutAll(Build(nodes, links), ops))
  {
    if ops == [] {
      BuildSound(nodes, links);
    } else {
      var v := PutAll(Build(nodes, links), ops[..|ops| - 1]);
      RunSound(nodes, links, ops[..|ops| - 1]);
      match ops[|ops| - 1] {
        case PutNode(n) => AddNodeSound(v, n);
        case PutLink(l, merge) => AddLinkSound(v, l, merge);
      }
    }
  }

  /** The edges put under one id, in order. */
  function EdgesPut(ops: seq<Op>, k: int): seq<Edges.Edge> {
    if ops == [] then []
    else
      var op := ops[|ops| - 1];
      EdgesPut(ops[..|ops| - 1], k) + if op.PutLink? && op.l.gid == k then [op.l.edge] else []
  }

  lemma {:induction false} PutsSplit(a: seq<Op>, b: seq<Op>, k: int)
    ensures EdgesPut(a + b, k) == EdgesPut(a, k) + EdgesPut(b, k)
    ensures WeightPut(a + b, k) == WeightPut(a, k) + WeightPut(b, k)
  {
    if b == [] {
      assert a + b == a;
    } else {
      PutsSplit(a, b[..|b| - 1], k);
      assert (a + b)[..|a + b| - 1] == a + b[..|b| - 1];
    }
  }

  /** A node puts no edge; an edge counts under its own id alone, whether it is merged or not. */
  lemma PutsOne(n: Node, l: Link, merge: bool, k: int)
    ensures EdgesPut([PutNode(n)], k) == [] && WeightPut([PutNode(n)], k) == 0.0
    ensures EdgesPut([PutLink(l, merge)], k) == if l.gid == k then [l.edge] else []
    ensures WeightPut([PutLink(l, merge)], k) ==
            if l.gid == k && l.edge.weight.Some? then l.edge.weight.value else 0.0
  {
    assert [PutNode(n)][..0] == [] && [PutLink(l, merge)][..0] == [];
    assert EdgesPut([], k) == [] && WeightPut([], k) == 0.0;
  }

  /** What the graph holds under one id is the fold of these edges. */
  predicate HoldsFold(v: View, k: int, es: seq<Edges.Edge>) {
    if es == [] then !Has(v.links, k) else Has(v.links, k) && At(v.links, k).edge == Edges.Fold(es)
  }

  lemma PutFolds(v: View, l: Link, k: int, es: seq<Edges.Edge>)
    requires HoldsFold(v, k, es)
    ensures HoldsFold(AddLink(v, l, true), k, es + if l.gid == k then [l.edge] else [])
  {
    StoredAt(v.links, l, true, k);
    if l.gid != k {
      assert es + [] == es;
    } else if es == [] {
      assert es + [l.edge] == [l.edge];
    } else {
      Edges.FoldAppend(es, l.edge);
    }
  }

  /**
   With merging enabled throughout, every edge of the graph is the fold of all edges put under its id,
   traffic and time span included, from any graph that does not hold the id yet.
   */
  lemma {:induction false} RunFolds(v: View, ops: seq<Op>, k: int)
    requires !Has(v.links, k) && forall i | 0 <= i < |ops| :: ops[i].PutLink? ==> ops[i].merge
    ensures HoldsFold(PutAll(v, ops), k, EdgesPut(ops, k))
  {
    hide HoldsFold;
    if ops == [] {
      HoldsNone(v, k);
    } else {
      var init, before := ops[..|ops| - 1], PutAll(v, ops[..|ops| - 1]);
      RunFolds(v, init, k);
      match ops[|ops| - 1] {
        case PutNode(n) =>
          assert EdgesPut(init, k) + [] == EdgesPut(init, k);
          HoldsStays(before, n, k, EdgesPut(init, k));
        case PutLink(l, merge) =>
          PutFolds(before, l, k, EdgesPut(init, k));
      }
    }
  }

  lemma HoldsNone(v: View, k: int)
    ensures HoldsFold(v, k, []) <==> !Has(v.links, k)
  {
  }

  lemma HoldsStays(v: View, n: Node, k: int, es: seq<Edges.Edge>)
    requires HoldsFold(v, k, es)
    ensures HoldsFold(AddNode(v, n), k, es)
  {
  }

  /** With merging enabled throughout, no weight is lost: each edge weighs what was put, in any order. */
  lemma {:induction false} RunConservesWeight(v: View, ops: seq<Op>, k: int)
    requires Sound(v) && forall i | 0 <= i < |ops| :: ops[i].PutLink? ==> ops[i].merge
    ensures Sound(PutAll(v, ops)) && Weigh(PutAll(v, ops), k) == Weigh(v, k) + WeightPut(ops, k)
  {
    if ops == [] {
    } else {
      var init, before := ops[..|ops| - 1], PutAll(v, ops[..|ops| - 1]);
      RunConservesWeight(v, init, k);
      hide Sound;
      match ops[|ops| - 1] {
        case PutNode(n) =>
          AddNodeSound(before, n);
        case PutLink(l, merge) =>
          AddLinkSound(before, l, merge);
          AddLinkExact(before, l, merge, k);
      }
    }
  }

  // ----- Comparing and merging ---------------------------------------------------------------------------

  /** `__ge__`: every node id and edge id of the other graph is here too. */
  ghost predicate Ge(a: View, b: View) {
    && (forall i | 0 <= i < |b.nodes| :: Has(a.nodes, b.nodes[i].1.gid))
    && (forall i | 0 <= i < |b.links| :: Has(a.links, b.links[i].1.gid))
  }

  /** Between sound graphs: the ids of the one are among those of the other. */
  lemma GeIff(a: View, b: View)
    requires Sound(b)
    ensures Ge(a, b) <==>
            && (forall k | Has(b.nodes, k) :: Has(a.nodes, k))
            && (forall k | Has(b.links, k) :: Has(a.links, k))
  {
    if Ge(a, b) {
      forall k | Has(b.nodes, k)
        ensures Has(a.nodes, k)
      {
        assert b.nodes[IndexOf(b.nodes, k)].1.gid == k;
      }
      forall k | Has(b.links, k)
        ensures Has(a.links, k)
      {
        assert b.links[IndexOf(b.links, k)].1.gid == k;
      }
    } else {
      if i :| 0 <= i < |b.nodes| && !Has(a.nodes, b.nodes[i].1.gid) {
        HasMeans(b.nodes, b.nodes[i].0);
      }
      if i :| 0 <= i < |b.links| && !Has(a.links, b.links[i].1.gid) {
        HasMeans(b.links, b.links[i].0);
      }
    }
  }

  function NodesOf(vs: seq<View>): seq<Node> {
    if vs == [] then [] else NodesOf(vs[..|vs| - 1]) + Values(vs[|vs| - 1].nodes)
  }

  function LinksOf(vs: seq<View>): seq<Link> {
    if vs == [] then [] else LinksOf(vs[..|vs| - 1]) + Values(vs[|vs| - 1].links)
  }

  function MergeGraphs(vs: seq<View>): View {
    Build(NodesOf(vs), LinksOf(vs))
  }

  ghost predicate SomeNode(vs: seq<View>, k: int) {
    exists i :: 0 <= i < |vs| && Has(vs[i].nodes, k)
  }

  ghost predicate SomeLink(vs: seq<View>, k: int) {
    exists i :: 0 <= i < |vs| && Has(vs[i].links, k)
  }

  lemma InNodesConcat(a: seq<Node>, b: seq<Node>, k: int)
    ensures InNodes(a + b, k) <==> InNodes(a, k) || InNodes(b, k)
  {
    if InNodes(a, k) {
      var i :| 0 <= i < |a| && a[i].gid == k;
      assert (a + b)[i].gid == k;
    }
    if InNodes(b, k) {
      var i :| 0 <= i < |b| && b[i].gid == k;
      assert (a + b)[|a| + i].gid == k;
    }
  }

  lemma InLinksConcat(a: seq<Link>, b: seq<Link>, k: int)
    ensures InLinks(a + b, k) <==> InLinks(a, k) || InLinks(b, k)
  {
    if InLinks(a, k) {
      var i :| 0 <= i < |a| && a[i].gid == k;
      assert (a + b)[i].gid == k;
    }
    if InLinks(b, k) {
      var i :| 0 <= i < |b| && b[i].gid == k;
      assert (a + b)[|a| + i].gid == k;
    }
  }

  lemma ValuesHave(v: View, k: int)
    requires Sound(v)
    ensures InNodes(Values(v.nodes), k) <==> Has(v.nodes, k)
    ensures InLinks(Values(v.links), k) <==> Has(v.links, k)
  {
    HasMeans(v.nodes, k);
    HasMeans(v.links, k);
    if Has(v.nodes, k) {
      assert Values(v.nodes)[IndexOf(v.nodes, k)].gid == k;
    }
    if Has(v.links, k) {
      assert Values(v.links)[IndexOf(v.links, k)].gid == k;
    }
  }

  lemma {:induction false} ListsHave(vs: seq<View>, k: int)
    requires forall v | v in vs :: Sound(v)
    ensures InNodes(NodesOf(vs), k) <==> SomeNode(vs, k)
    ensures InLinks(LinksOf(vs), k) <==> SomeLink(vs, k)
  {
    hide Sound, Has;
    if vs == [] {
    } else {
      var init, v := vs[..|vs| - 1], vs[|vs| - 1];
      ListsHave(init, k);
      ValuesHave(v, k);
      InNodesConcat(NodesOf(init), Values(v.nodes), k);
      InLinksConcat(LinksOf(init), Values(v.links), k);
      SomeSplits(init, v, k);
      assert vs == init + [v];
    }
  }

  lemma SomeSplits(vs: seq<View>, v: View, k: int)
    ensures SomeNode(vs + [v], k) <==> SomeNode(vs, k) || Has(v.nodes, k)
    ensures SomeLink(vs + [v], k) <==> SomeLink(vs, k) || Has(v.links, k)
  {
    hide Has;
    var all := vs + [v];
    assert all[|vs|] == v;
    if SomeNode(vs, k) {
      var i :| 0 <= i < |vs| && Has(vs[i].nodes, k);
      assert all[i] == vs[i];
    }
    if SomeLink(vs, k) {
      var i :| 0 <= i < |vs| && Has(vs[i].links, k);
      assert all[i] == vs[i];
    }
  }

  lemma EndsAreNodes(v: View, k: int)
    requires Sound(v) && InNodes(AllEnds(Values(v.links)), k)
    ensures Has(v.nodes, k)
  {
    EndsOfSome(Values(v.links), k);
    var l, n :| l in Values(v.links) && n in l.ends && n.gid == k;
    var i :| 0 <= i < |v.links| && Values(v.links)[i] == l;
    assert n in v.links[i].1.ends;
  }

  lemma {:induction false} EndsOfSome(links: seq<Link>, k: int)
    requires InNodes(AllEnds(links), k)
    ensures exists l, n :: l in links && n in l.ends && n.gid == k
  {
    var init, last := links[..|links| - 1], links[|links| - 1];
    InNodesConcat(AllEnds(init), last.ends, k);
    if InNodes(AllEnds(init), k) {
      EndsOfSome(init, k);
      var l, n :| l in init && n in l.ends && n.gid == k;
      assert l in links;
    } else {
      var i :| 0 <= i < |last.ends| && last.ends[i].gid == k;
      assert last in links && last.ends[i] in last.ends;
    }
  }

  lemma {:induction false} AllEndsOfLists(vs: seq<View>, k: int)
    requires forall v | v in vs :: Sound(v)
    requires InNodes(AllEnds(LinksOf(vs)), k)
    ensures SomeNode(vs, k)
  {
    hide Sound, Has;
    EndsOfSome(LinksOf(vs), k);
    var l, n :| l in LinksOf(vs) && n in l.ends && n.gid == k;
    var v := LinkFrom(vs, l);
    AllEndsHas(Values(v.links), l, n);
    EndsAreNodes(v, k);
  }

  lemma {:induction false} LinkFrom(vs: seq<View>, l: Link) returns (v: View)
    requires l in LinksOf(vs)
    ensures v in vs && l in Values(v.links)
  {
    var init, last := vs[..|vs| - 1], vs[|vs| - 1];
    if l in Values(last.links) {
      v := last;
    } else {
      v := LinkFrom(init, l);
    }
  }

  /** Merging graphs yields exactly the union of their node ids and of their edge ids, soundly. */
  lemma MergeIsUnion(vs: seq<View>, k: int)
    requires forall v | v in vs :: Sound(v)
    ensures Sound(MergeGraphs(vs))
    ensures Has(MergeGraphs(vs).nodes, k) <==> SomeNode(vs, k)
    ensures Has(MergeGraphs(vs).links, k) <==> SomeLink(vs, k)
  {
    hide Sound, Has;
    BuildSound(NodesOf(vs), LinksOf(vs));
    BuildNodesFacts(NodesOf(vs), LinksOf(vs), k);
    BuildLinksFacts(LinksOf(vs), k);
    ListsHave(vs, k);
    if InNodes(AllEnds(LinksOf(vs)), k) {
      AllEndsOfLists(vs, k);
    }
  }

  /** ... so the merged graph is >= each of them. */
  lemma MergeIsAbove(vs: seq<View>, j: nat)
    requires (forall v | v in vs :: Sound(v)) && j < |vs|
    ensures Ge(MergeGraphs(vs), vs[j])
  {
    var m, v := MergeGraphs(vs), vs[j];
    assert Sound(v);
    forall i | 0 <= i < |v.nodes|
      ensures Has(m.nodes, v.nodes[i].1.gid)
    {
      HasMeans(v.nodes, v.nodes[i].0);
      MergeIsUnion(vs, v.nodes[i].0);
    }
    forall i | 0 <= i < |v.links|
      ensures Has(m.links, v.links[i].1.gid)
    {
      HasMeans(v.links, v.links[i].0);
      MergeIsUnion(vs, v.links[i].0);
    }
  }

  /** The edge of an id in the merged graph is that of the last graph that has the id, and so is the node. */
  lemma LastGraphWins(vs: seq<View>, j: nat, k: int)
    requires (forall v | v in vs :: Sound(v)) && j < |vs|
    ensures Has(vs[j].links, k) && (forall i | j < i < |vs| :: !Has(vs[i].links, k)) ==>
              Has(MergeGraphs(vs).links, k) && At(MergeGraphs(vs).links, k) == At(vs[j].links, k)
    ensures Has(vs[j].nodes, k) && (forall i | j < i < |vs| :: !Has(vs[i].nodes, k)) ==>
              Has(MergeGraphs(vs).nodes, k) && At(MergeGraphs(vs).nodes, k) == At(vs[j].nodes, k)
  {
    hide Sound, BuildNodes, BuildLinks;
    if Has(vs[j].links, k) && forall i | j < i < |vs| :: !Has(vs[i].links, k) {
      var i := LastLinkOf(vs, j, k);
      LastIsKept(LinksOf(vs), i);
    }
    if Has(vs[j].nodes, k) && forall i | j < i < |vs| :: !Has(vs[i].nodes, k) {
      var i := LastNodeOf(vs, j, k);
      LastNodeIsKept(NodesOf(vs), LinksOf(vs), i);
    }
  }

  lemma {:induction false} LastLinkOf(vs: seq<View>, j: nat, k: int) returns (i: nat)
    requires (forall v | v in vs :: Sound(v)) && j < |vs|
    requires Has(vs[j].links, k) && forall i | j < i < |vs| :: !Has(vs[i].links, k)
    ensures i < |LinksOf(vs)| && LinksOf(vs)[i] == At(vs[j].links, k) && LinksOf(vs)[i].gid == k
    ensures forall m | i < m < |LinksOf(vs)| :: LinksOf(vs)[m].gid != k
  {
    var init, last := vs[..|vs| - 1], vs[|vs| - 1];
    assert Sound(last);
    if j == |init| {
      i := |LinksOf(init)| + IndexOf(last.links, k);
    } else {
      i := LastLinkOf(init, j, k);
      ValuesHave(last, k);
    }
  }

  lemma {:induction false} LastNodeOf(vs: seq<View>, j: nat, k: int) returns (i: nat)
    requires (forall v | v in vs :: Sound(v)) && j < |vs|
    requires Has(vs[j].nodes, k) && forall i | j < i < |vs| :: !Has(vs[i].nodes, k)
    ensures i < |NodesOf(vs)| && NodesOf(vs)[i] == At(vs[j].nodes, k) && NodesOf(vs)[i].gid == k
    ensures forall m | i < m < |NodesOf(vs)| :: NodesOf(vs)[m].gid != k
  {
    var init, last := vs[..|vs| - 1], vs[|vs| - 1];
    assert Sound(last);
    if j == |init| {
      i := |NodesOf(init)| + IndexOf(last.nodes, k);
    } else {
      i := LastNodeOf(init, j, k);
      ValuesHave(last, k);
    }
  }

  class Graph {
    var nodes: seq<Node>
    var edges: seq<Link>
    var id2nodes: Dict<Node>
    var id2edges: Dict<Link>

    /** The lists agree with the indexes, and the indexes are sound. */
    ghost predicate Valid()
      reads this
    {
      nodes == Values(id2nodes) && edges == Values(id2edges) && Sound(Contents())
    }

    ghost function Contents(): View
      reads this
    {
      View(id2nodes, id2edges)
    }

    constructor (nodeList: seq<Node>, edgeList: seq<Link>)
      ensures Valid() && Contents() == Build(nodeList, edgeList)
    {
      id2nodes, id2edges := Group(NodePairs(nodeList), LastWins()), BuildLinks(edgeList);
      nodes, edges := [], Values(BuildLinks(edgeList));
      new;
      id2nodes := FillEndpoints(id2nodes, edgeList);
      nodes := Values(id2nodes);
      BuildSound(nodeList, edgeList);
    }

    /** The loop that adds the endpoints no list mentions. */
    static method FillEndpoints(d: Dict<Node>, edgeList: seq<Link>) returns (d': Dict<Node>)
      ensures d' == AddMissing(d, AllEnds(edgeList))
    {
      hide AddMissing, Has;
      d' := d;
      AddMissingStep(d, [], Node(0, 0));
      for e := 0 to |edgeList|
        invariant d' == AddMissing(d, AllEnds(edgeList[..e]))
      {
        var ends := edgeList[e].ends;
        ghost var before := AllEnds(edgeList[..e]);
        assert before + ends[..0] == before && edgeList[..e + 1][..e] == edgeList[..e];
        for i := 0 to |ends|
          invariant d' == AddMissing(d, before + ends[..i])
        {
          AddMissingStep(d, before + ends[..i], ends[i]);
          assert before + ends[..i + 1] == (before + ends[..i]) + [ends[i]];
          if !Has(d', ends[i].gid) {
            d' := d' + [(ends[i].gid, ends[i])];
          }
        }
        assert ends[..|ends|] == ends;
      }
      assert edgeList[..|edgeList|] == edgeList;
    }

    method ContainsNode(gid: int) returns (found: bool)
      ensures found <==> Has(id2nodes, gid)
    {
      found := IndexOf(id2nodes, gid) < |id2nodes|;
    }

    /** The body of `try_add_node`, which the edge loop also runs while endpoints are still missing. */
    method PutNode(n: Node)
      requires nodes == Values(id2nodes)
      modifies this`nodes, this`id2nodes
      ensures nodes == Values(id2nodes)
      ensures id2nodes == if Has(old(id2nodes), n.gid) then old(id2nodes) else old(id2nodes) + [(n.gid, n)]
    {
      if !Has(id2nodes, n.gid) {
        nodes := nodes + [n];
        id2nodes := id2nodes + [(n.gid, n)];
      }
    }

    method TryAddNode(n: Node)
      requires Valid()
      modifies this`nodes, this`id2nodes
      ensures Valid() && Contents() == AddNode(old(Contents()), n)
    {
      AddNodeSound(Contents(), n);
      AddMissingStep(id2nodes, [], n);
      assert [] + [n] == [n];
      PutNode(n);
    }

    /** The edge part of `try_add_edge`. */
    method PutEdge(l: Link, mergeEnable: bool)
      requires edges == Values(id2edges)
      modifies this`edges, this`id2edges
      ensures edges == Values(id2edges) && id2edges == StoreLink(old(id2edges), l, mergeEnable)
    {
      var at := IndexOf(id2edges, l.gid);
      if at == |id2edges| {
        edges := edges + [l];
        id2edges := id2edges + [(l.gid, l)];
      } else if mergeEnable {
        var merged := MergeLink(edges[at], l);
        edges := edges[at := merged];
        id2edges := id2edges[at := (l.gid, merged)];
      }
    }

    method PutEnds(ends: seq<Node>)
      requires nodes == Values(id2nodes)
      modifies this`nodes, this`id2nodes
      ensures nodes == Values(id2nodes) && id2nodes == AddMissing(old(id2nodes), ends)
    {
      hide AddMissing, Values, Has;
      AddMissingStep(id2nodes, [], Node(0, 0));
      for i := 0 to |ends|
        invariant nodes == Values(id2nodes) && id2nodes == AddMissing(old(id2nodes), ends[..i])
      {
        AddMissingStep(old(id2nodes), ends[..i], ends[i]);
        assert ends[..i + 1] == ends[..i] + [ends[i]];
        PutNode(ends[i]);
      }
      assert ends[..|ends|] == ends;
    }

    method TryAddEdge(l: Link, mergeEnable: bool)
      requires Valid()
      modifies this
      ensures Valid() && Contents() == AddLink(old(Contents()), l, mergeEnable)
    {
      AddLinkSound(Contents(), l, mergeEnable);
      hide AddMissing, Sound, StoreLink, Values;
      PutEdge(l, mergeEnable);
      PutEnds(l.ends);
    }
  }
}
