/** The whole expansion: the breadth-first search, then the sorted graph of what it found. */
module Topology {
  import opened Options
  import opened Edges
  import opened Sequences
  import opened Sorting
  import Bfs
  import Grouping
  import Graphs

  /** The entity of a global id, and the text that is an edge's global id. */
  datatype Naming = Naming(entity: Gid -> Graphs.Node, text: EdgeId -> int)

  ghost predicate Exact(names: Naming) {
    && (forall g :: names.entity(g).gid == g)
    && (forall a, b :: names.text(a) == names.text(b) ==> a == b)
  }

  function LinkOf(names: Naming, e: Edge): Graphs.Link {
    Graphs.Link(names.text(e.id), [names.entity(e.id.source), names.entity(e.id.target)], e)
  }

  function NodesOf(names: Naming, gids: seq<Gid>): seq<Graphs.Node> {
    if gids == [] then [] else NodesOf(names, gids[..|gids| - 1]) + [names.entity(gids[|gids| - 1])]
  }

  function LinksOf(names: Naming, edges: seq<Edge>): seq<Graphs.Link> {
    if edges == [] then [] else LinksOf(names, edges[..|edges| - 1]) + [LinkOf(names, edges[|edges| - 1])]
  }

  const NODE_ORDER: (Graphs.Node, Graphs.Node) -> bool := (a: Graphs.Node, b: Graphs.Node) => a.gid < b.gid
  const LINK_ORDER: (Graphs.Link, Graphs.Link) -> bool := (a: Graphs.Link, b: Graphs.Link) => a.gid < b.gid

  /** `Graph(nodes=sorted(nodes), edges=sorted(edges))`. */
  function Assembled(names: Naming, gids: seq<Gid>, edges: seq<Edge>): Graphs.View {
    Graphs.Build(SortBy(NodesOf(names, gids), NODE_ORDER), SortBy(LinksOf(names, edges), LINK_ORDER))
  }

  ghost predicate IsEnd(edges: seq<Edge>, g: Gid) {
    exists e | e in edges :: e.id.source == g || e.id.target == g
  }

  lemma {:induction false} NodesHave(names: Naming, gids: seq<Gid>, g: Gid)
    requires Exact(names)
    ensures Graphs.InNodes(NodesOf(names, gids), g) <==> g in gids
  {
    if gids == [] {
    } else {
      var init, last := gids[..|gids| - 1], gids[|gids| - 1];
      NodesHave(names, init, g);
      Graphs.InNodesAppend(NodesOf(names, init), names.entity(last), g);
      assert gids == init + [last];
    }
  }

  lemma {:induction false} LinksHave(names: Naming, edges: seq<Edge>, l: Graphs.Link)
    ensures l in LinksOf(names, edges) <==> exists e | e in edges :: l == LinkOf(names, e)
  {
    if edges == [] {
    } else {
      var init, last := edges[..|edges| - 1], edges[|edges| - 1];
      LinksHave(names, init, l);
      assert edges == init + [last];
    }
  }

  lemma SortedHas<T>(s: seq<T>, less: (T, T) -> bool)
    ensures forall x :: x in SortBy(s, less) <==> x in s
  {
    SortMembers(s, less);
    SameMembers(SortBy(s, less), s);
  }

  lemma InNodesMeans(nodes: seq<Graphs.Node>, g: Gid)
    ensures Graphs.InNodes(nodes, g) <==> exists n | n in nodes :: n.gid == g
  {
    if n :| n in nodes && n.gid == g {
      var i :| 0 <= i < |nodes| && nodes[i] == n;
      assert nodes[i].gid == g;
    }
  }

  lemma InLinksMeans(links: seq<Graphs.Link>, k: int)
    ensures Graphs.InLinks(links, k) <==> exists l | l in links :: l.gid == k
  {
    if l :| l in links && l.gid == k {
      var i :| 0 <= i < |links| && links[i] == l;
      assert links[i].gid == k;
    }
  }

  lemma EndsHave(names: Naming, edges: seq<Edge>, links: seq<Graphs.Link>, g: Gid)
    requires Exact(names) && forall l :: l in links <==> l in LinksOf(names, edges)
    ensures Graphs.InNodes(Graphs.AllEnds(links), g) <==> IsEnd(edges, g)
  {
    if Graphs.InNodes(Graphs.AllEnds(links), g) {
      Graphs.EndsOfSome(links, g);
      var l, n :| l in links && n in l.ends && n.gid == g;
      LinksHave(names, edges, l);
      var e :| e in edges && l == LinkOf(names, e);
      assert n == names.entity(e.id.source) || n == names.entity(e.id.target);
    }
    if e :| e in edges && (e.id.source == g || e.id.target == g) {
      LinksHave(names, edges, LinkOf(names, e));
      var n := names.entity(g);
      assert n in LinkOf(names, e).ends;
      Graphs.AllEndsHas(links, LinkOf(names, e), n);
    }
  }

  /** The graph's nodes are the listed entities and the endpoints of every edge, and nothing else. */
  lemma AssembledNodes(names: Naming, gids: seq<Gid>, edges: seq<Edge>, g: Gid)
    requires Exact(names)
    ensures Graphs.Has(Assembled(names, gids, edges).nodes, g) <==> g in gids || IsEnd(edges, g)
  {
    hide Graphs.Has, Graphs.InNodes, IsEnd, SortBy, Graphs.BuildNodes;
    var nodes, links := SortBy(NodesOf(names, gids), NODE_ORDER), SortBy(LinksOf(names, edges), LINK_ORDER);
    Graphs.BuildNodesFacts(nodes, links, g);
    SortedHas(NodesOf(names, gids), NODE_ORDER);
    SortedHas(LinksOf(names, edges), LINK_ORDER);
    InNodesMeans(nodes, g);
    InNodesMeans(NodesOf(names, gids), g);
    NodesHave(names, gids, g);
    EndsHave(names, edges, links, g);
  }

  /** The graph's edge ids are those of the edges, and each edge is in it whole. */
  lemma AssembledLinks(names: Naming, gids: seq<Gid>, edges: seq<Edge>, id: EdgeId)
    requires Exact(names) && Bfs.DistinctIds(edges)
    ensures var d := Assembled(names, gids, edges).links;
            && (Graphs.Has(d, names.text(id)) <==> id in Bfs.Ids(edges))
            && forall e | e in edges && e.id == id :: Graphs.Has(d, names.text(id))
                && Graphs.At(d, names.text(id)).ends == [names.entity(e.id.source), names.entity(e.id.target)]
                && Graphs.At(d, names.text(id)).edge == e
  {
    hide Graphs.Has, Graphs.InLinks, SortBy, Graphs.BuildLinks;
    var links := SortBy(LinksOf(names, edges), LINK_ORDER);
    Graphs.BuildLinksFacts(links, names.text(id));
    SortedHas(LinksOf(names, edges), LINK_ORDER);
    InLinksMeans(links, names.text(id));
    if l :| l in links && l.gid == names.text(id) {
      LinksHave(names, edges, l);
      var e :| e in edges && l == LinkOf(names, e);
      assert e.id == id && e.id in Bfs.Ids(edges);
    }
    if e :| e in edges && e.id == id {
      LinksHave(names, edges, LinkOf(names, e));
      OnlyLink(names, edges, e);
      Graphs.SoleIsKept(links, LinkOf(names, e));
      forall f | f in edges && f.id == id
        ensures f == e
      {
      }
    }
  }

  lemma GroupedAscending<V>(rows: Graphs.Dict<V>, i: nat, j: nat)
    requires (forall a, b | 0 <= a < b < |rows| :: rows[a].0 <= rows[b].0)
    requires i < j < |Grouping.Group(rows, Graphs.LastWins())|
    ensures var d := Grouping.Group(rows, Graphs.LastWins()); d[i].0 < d[j].0
  {
    var d := Grouping.Group(rows, Graphs.LastWins());
    Grouping.GroupOrder(rows, Graphs.LastWins());
    Grouping.UniqueGroup(rows, Graphs.LastWins());
    assert d[i].0 != d[j].0;
    var a, b := Grouping.IndexOf(rows, d[i].0), Grouping.IndexOf(rows, d[j].0);
    assert rows[a].0 == d[i].0 && rows[b].0 == d[j].0;
  }

  /** The edges stand in ascending order of their ids, and so do the nodes that were listed, before the others. */
  ghost predicate Ascending(nodes: seq<Graphs.Node>, links: seq<Graphs.Link>, gids: seq<Gid>) {
    && (forall i, j | 0 <= i < j < |links| :: links[i].gid < links[j].gid)
    && (forall i, j | 0 <= i < j < |nodes| && nodes[j].gid in gids :: nodes[i].gid < nodes[j].gid)
  }

  lemma AssembledAscends(names: Naming, gids: seq<Gid>, edges: seq<Edge>)
    requires Exact(names)
    ensures var v := Assembled(names, gids, edges); Ascending(Graphs.Values(v.nodes), Graphs.Values(v.links), gids)
  {
    hide Assembled;
    var v := Assembled(names, gids, edges);
    forall i, j | 0 <= i < j < |v.links|
      ensures v.links[i].1.gid < v.links[j].1.gid
    {
      LinksInOrder(names, gids, edges, i, j);
    }
    forall i, j | 0 <= i < j < |v.nodes| && v.nodes[j].1.gid in gids
      ensures v.nodes[i].1.gid < v.nodes[j].1.gid
    {
      NodesInOrder(names, gids, edges, i, j);
    }
  }

  lemma LinksInOrder(names: Naming, gids: seq<Gid>, edges: seq<Edge>, i: nat, j: nat)
    requires i < j < |Assembled(names, gids, edges).links|
    ensures var links := Assembled(names, gids, edges).links; links[i].1.gid < links[j].1.gid
  {
    hide SortBy, Grouping.Group;
    var listed := SortBy(LinksOf(names, edges), LINK_ORDER);
    SortOrders(LinksOf(names, edges), LINK_ORDER);
    Graphs.BuildLinksFacts(listed, 0);
    GroupedAscending(Graphs.LinkPairs(listed), i, j);
  }

  lemma NodesInOrder(names: Naming, gids: seq<Gid>, edges: seq<Edge>, i: nat, j: nat)
    requires Exact(names) && i < j < |Assembled(names, gids, edges).nodes|
    requires Assembled(names, gids, edges).nodes[j].1.gid in gids
    ensures var nodes := Assembled(names, gids, edges).nodes; nodes[i].1.gid < nodes[j].1.gid
  {
    hide SortBy, Grouping.Group, Graphs.Has, Graphs.AddMissing;
    var all := SortBy(NodesOf(names, gids), NODE_ORDER);
    var listed := Grouping.Group(Graphs.NodePairs(all), Graphs.LastWins());
    var d, k := Assembled(names, gids, edges).nodes, Assembled(names, gids, edges).nodes[j].1.gid;
    SortOrders(NodesOf(names, gids), NODE_ORDER);
    Graphs.PairsHave(all, [], k);
    Graphs.GroupKeyed(Graphs.NodePairs(all), Graphs.NodeId());
    Graphs.GroupHas(Graphs.NodePairs(all), k);
    Graphs.AddMissingFacts(listed, Graphs.AllEnds(SortBy(LinksOf(names, edges), LINK_ORDER)));
    SortedHas(NodesOf(names, gids), NODE_ORDER);
    InNodesMeans(all, k);
    InNodesMeans(NodesOf(names, gids), k);
    NodesHave(names, gids, k);
    Graphs.HasMeans(listed, k);
    var at :| 0 <= at < |listed| && listed[at].0 == k;
    Graphs.SameKeySameIndex(d, at, j);
    GroupedAscending(Graphs.NodePairs(all), i, j);
  }

  /** With distinct ids, the edge is the only one whose link has its id. */
  lemma OnlyLink(names: Naming, edges: seq<Edge>, e: Edge)
    requires Exact(names) && Bfs.DistinctIds(edges) && e in edges
    ensures forall l | l in LinksOf(names, edges) && l.gid == names.text(e.id) :: l == LinkOf(names, e)
  {
    forall l | l in LinksOf(names, edges) && l.gid == names.text(e.id)
      ensures l == LinkOf(names, e)
    {
      LinksHave(names, edges, l);
      var f :| f in edges && l == LinkOf(names, f);
      assert f.id == e.id;
    }
  }

  /**
   The expansion with its last line.  The result's nodes are the seeds, the visited entities and the
   endpoints of every edge, ignored ones included; its edges are those of the search, weight and traffic included.
   */
  method ExpandToGraph(c: Bfs.Collector, names: Naming, seeds: seq<Gid>, seedEdges: seq<Edge>, ignoreEntities: set<Gid>,
                       ignoreEdges: set<EdgeId>, maxIterations: Option<int>, ghost universe: set<Gid>)
    returns (graph: Graphs.Graph, ghost visited: seq<Gid>, ghost edges: seq<Edge>)
    requires Exact(names) && Bfs.DistinctIds(seedEdges)
    requires maxIterations.None? ==> Bfs.Closed(c.net, universe) && Elements(seeds) <= universe
    modifies c
    ensures c.asked == old(c.asked) + visited
    ensures Bfs.Expanded(Bfs.World(c.net, seeds, ignoreEntities), visited, maxIterations)
    ensures Bfs.EdgesFold(seedEdges, ignoreEdges, Bfs.ReportsOf(c.net, visited), edges)
    ensures fresh(graph) && graph.Valid()
    ensures forall g :: Graphs.Has(graph.id2nodes, g) <==> g in seeds || g in visited || IsEnd(edges, g)
    ensures forall id :: Graphs.Has(graph.id2edges, names.text(id)) <==> id in Bfs.Ids(edges)
    ensures forall e | e in edges ::
              && Graphs.Has(graph.id2edges, names.text(e.id))
              && Graphs.At(graph.id2edges, names.text(e.id)).ends
                  == [names.entity(e.id.source), names.entity(e.id.target)]
              && Graphs.At(graph.id2edges, names.text(e.id)).edge == e
    ensures Ascending(graph.nodes, graph.edges, seeds + visited)
  {
    var nodes, found, ignoredEntities, ignoredEdges :=
      c.ExpandGraphBfs(seeds, seedEdges, ignoreEntities, ignoreEdges, maxIterations, universe);
    visited, edges := c.asked[|old(c.asked)|..], found;
    var ns := Entities(names, nodes);
    var ls := Links(names, found);
    graph := new Graphs.Graph(SortBy(ns, NODE_ORDER), SortBy(ls, LINK_ORDER));
    hide Bfs.Expanded, Bfs.EdgesFold, Graphs.Has, Graphs.At, Graphs.Values, IsEnd, Ascending, SortBy, Bfs.ReportsOf;
    FoldsAreDistinct(seedEdges, ignoreEdges, Bfs.ReportsOf(c.net, visited), edges);
    AssembledWhole(names, nodes, found);
  }

  /** The nodes, the edges and their order together. */
  lemma AssembledWhole(names: Naming, gids: seq<Gid>, edges: seq<Edge>)
    requires Exact(names) && Bfs.DistinctIds(edges)
    ensures var v := Assembled(names, gids, edges);
            && (forall g :: Graphs.Has(v.nodes, g) <==> g in gids || IsEnd(edges, g))
            && (forall id :: Graphs.Has(v.links, names.text(id)) <==> id in Bfs.Ids(edges))
            && Ascending(Graphs.Values(v.nodes), Graphs.Values(v.links), gids)
    ensures var d := Assembled(names, gids, edges).links;
            forall e | e in edges ::
              && Graphs.Has(d, names.text(e.id))
              && Graphs.At(d, names.text(e.id)).ends == [names.entity(e.id.source), names.entity(e.id.target)]
              && Graphs.At(d, names.text(e.id)).edge == e
  {
    hide Assembled, Graphs.Has, Graphs.At, Graphs.Values, IsEnd, Ascending, Bfs.Ids;
    AssembledAscends(names, gids, edges);
    forall g
      ensures Graphs.Has(Assembled(names, gids, edges).nodes, g) <==> g in gids || IsEnd(edges, g)
    {
      AssembledNodes(names, gids, edges, g);
    }
    forall id: EdgeId {
      AssembledLinks(names, gids, edges, id);
    }
    forall e | e in edges {
      AssembledLinks(names, gids, edges, e.id);
    }
  }

  lemma FoldsAreDistinct(seeds: seq<Edge>, ignored: set<EdgeId>, log: seq<Edge>, edges: seq<Edge>)
    requires Bfs.EdgesFold(seeds, ignored, log, edges)
    ensures Bfs.DistinctIds(edges)
  {
  }

  method Entities(names: Naming, gids: seq<Gid>) returns (nodes: seq<Graphs.Node>)
    ensures nodes == NodesOf(names, gids)
  {
    nodes := [];
    for i := 0 to |gids|
      invariant nodes == NodesOf(names, gids[..i])
    {
      assert gids[..i + 1][..i] == gids[..i];
      nodes := nodes + [names.entity(gids[i])];
    }
    assert gids[..|gids|] == gids;
  }

  method Links(names: Naming, edges: seq<Edge>) returns (links: seq<Graphs.Link>)
    ensures links == LinksOf(names, edges)
  {
    links := [];
    for i := 0 to |edges|
      invariant links == LinksOf(names, edges[..i])
    {
      assert edges[..i + 1][..i] == edges[..i];
      links := links + [LinkOf(names, edges[i])];
    }
    assert edges[..|edges|] == edges;
  }
}
