/** Breadth-first expansion of the topology from a seed graph. */
module Bfs {
  import opened Options
  import opened Edges
  import opened Sequences

  /** What `get_neighbors_with_edges` yields: it may fail, and then nothing is learnt. */
  datatype Discovery = Failed | Found(neighbors: seq<Gid>, reports: seq<Edge>)

  type Network = Gid -> Discovery

  function Neighbors(net: Network, g: Gid): seq<Gid> {
    match net(g)
    case Failed => []
    case Found(ns, _) => ns
  }

  function ReportsAt(net: Network, g: Gid): seq<Edge> {
    match net(g)
    case Failed => []
    case Found(_, es) => es
  }

  /** Every report made by the visited entities, in visiting order. */
  function ReportsOf(net: Network, visited: seq<Gid>): seq<Edge> {
    if visited == [] then []
    else ReportsOf(net, visited[..|visited| - 1]) + ReportsAt(net, visited[|visited| - 1])
  }

  // ----- Distance -------------------------------------------------------------------------

  datatype World = World(net: Network, seeds: seq<Gid>, ignored: set<Gid>)

  /** `g` is at most `k` hops from a seed, along a path that avoids the initially ignored entities. */
  ghost predicate Within(w: World, g: Gid, k: nat)
    decreases k
  {
    && g !in w.ignored
    && if k == 0 then g in w.seeds
       else Within(w, g, k - 1) || exists p :: Within(w, p, k - 1) && g in Neighbors(w.net, p)
  }

  ghost predicate Reaches(w: World, g: Gid) {
    exists k: nat :: Within(w, g, k)
  }

  /** A path from a seed along found neighbours, past no initially ignored entity. */
  ghost predicate Path(w: World, path: seq<Gid>) {
    && path != [] && path[0] in w.seeds
    && (forall i | 0 <= i < |path| :: path[i] !in w.ignored)
    && (forall i | 0 <= i < |path| - 1 :: w.net(path[i]).Found? && path[i + 1] in w.net(path[i]).neighbors)
  }

  ghost predicate EndsAt(path: seq<Gid>, g: Gid) {
    path != [] && path[|path| - 1] == g
  }

  /** An entity is within `k` hops if and only if such a path of at most `k` steps leads to it. */
  lemma WithinIffPath(w: World, g: Gid, k: nat)
    ensures Within(w, g, k) <==> exists path :: Path(w, path) && EndsAt(path, g) && |path| <= k + 1
  {
    if Within(w, g, k) {
      var path := PathTo(w, g, k);
    }
    if path :| Path(w, path) && EndsAt(path, g) && |path| <= k + 1 {
      PathIsWithin(w, path, k);
    }
  }

  lemma {:induction false} PathTo(w: World, g: Gid, k: nat) returns (path: seq<Gid>)
    requires Within(w, g, k)
    ensures Path(w, path) && EndsAt(path, g) && |path| <= k + 1
    decreases k
  {
    if k == 0 {
      path := [g];
    } else if Within(w, g, k - 1) {
      path := PathTo(w, g, k - 1);
    } else {
      var p :| Within(w, p, k - 1) && g in Neighbors(w.net, p);
      var before := PathTo(w, p, k - 1);
      path := before + [g];
    }
  }

  lemma {:induction false} PathIsWithin(w: World, path: seq<Gid>, k: nat)
    requires Path(w, path) && |path| <= k + 1
    ensures Within(w, path[|path| - 1], k)
    decreases |path|
  {
    var n := |path| - 1;
    if n == 0 {
      WithinMonotone(w, path[0], 0, k);
    } else {
      assert Path(w, path[..n]);
      PathIsWithin(w, path[..n], k - 1);
      assert path[n] in Neighbors(w.net, path[n - 1]);
    }
  }

  lemma {:induction false} WithinMonotone(w: World, g: Gid, j: nat, k: nat)
    requires j <= k && Within(w, g, j)
    ensures Within(w, g, k)
    decreases k
  {
    if j == k {
    } else {
      WithinMonotone(w, g, j, k - 1);
    }
  }

  /** Hop distances never decrease along the visiting order. */
  ghost predicate InOrder(w: World, visited: seq<Gid>) {
    forall i, j, k: nat | 0 <= i < j < |visited| && Within(w, visited[j], k) :: Within(w, visited[i], k)
  }

  /** Nothing closer than an already visited entity was left out. */
  ghost predicate ClosestFirst(w: World, visited: seq<Gid>) {
    && InOrder(w, visited)
    && (forall v, g, k: nat | v in visited && g !in visited && Within(w, g, k) :: Within(w, v, k))
  }

  // ----- The layer invariant ----------------------------------------------------------------

  /**
   The first `c` queued entries belong to hop distance `d`, the rest to `d + 1`; everything nearer
   is visited, and nothing at distance `d` is forgotten.
   */
  ghost predicate Layered(w: World, visited: seq<Gid>, queue: seq<Gid>, c: nat, d: nat) {
    && c <= |queue|
    && (forall v | v in visited :: Within(w, v, d))
    && (forall g | g in queue[..c] && g !in w.ignored :: Within(w, g, d))
    && (forall g | g in queue[c..] && g !in w.ignored :: Within(w, g, d + 1))
    && (forall g | Within(w, g, d) :: g in visited || g in queue[..c])
    && (forall v, n | v in visited && n in Neighbors(w.net, v) && n !in w.ignored :: n in visited || n in queue)
    && (d > 0 ==> forall g | Within(w, g, d - 1) :: g in visited)
  }

  lemma LayeredStarts(w: World)
    ensures Layered(w, [], w.seeds, |w.seeds|, 0)
  {
    assert w.seeds[..|w.seeds|] == w.seeds && w.seeds[|w.seeds|..] == [];
  }

  lemma LayerAdvances(w: World, visited: seq<Gid>, queue: seq<Gid>, d: nat)
    requires Layered(w, visited, queue, 0, d)
    ensures Layered(w, visited, queue, |queue|, d + 1)
  {
    assert queue[..|queue|] == queue && queue[|queue|..] == [] && queue[0..] == queue && queue[..0] == [];
    forall g | Within(w, g, d + 1)
      ensures g in visited || g in queue
    {
      if !Within(w, g, d) {
        var p :| Within(w, p, d) && g in Neighbors(w.net, p);
        assert p in visited;
      }
    }
    forall v | v in visited
      ensures Within(w, v, d + 1)
    {
      WithinMonotone(w, v, d, d + 1);
    }
  }

  lemma LayerSkips(w: World, visited: seq<Gid>, queue: seq<Gid>, c: nat, d: nat)
    requires Layered(w, visited, queue, c, d) && c > 0
    requires queue[0] in w.ignored || queue[0] in visited
    ensures Layered(w, visited, queue[1..], c - 1, d)
  {
    assert queue[..c] == [queue[0]] + queue[1..][..c - 1];
    assert queue[c..] == queue[1..][c - 1..];
    assert queue == [queue[0]] + queue[1..];
  }

  /** Visiting the head: its unseen neighbours join the next layer. */
  lemma LayerVisits(w: World, visited: seq<Gid>, queue: seq<Gid>, c: nat, d: nat, unseen: seq<Gid>)
    requires Layered(w, visited, queue, c, d) && c > 0
    requires queue[0] !in w.ignored && queue[0] !in visited
    requires forall n :: n in unseen <==>
               n in Neighbors(w.net, queue[0]) && n !in w.ignored && n !in visited && n != queue[0]
    ensures Layered(w, visited + [queue[0]], queue[1..] + unseen, c - 1, d)
  {
    var v, rest := queue[0], queue[1..];
    assert queue[..c] == [v] + rest[..c - 1];
    assert queue[c..] == rest[c - 1..];
    assert queue == [v] + rest;
    assert (rest + unseen)[..c - 1] == rest[..c - 1];
    assert (rest + unseen)[c - 1..] == rest[c - 1..] + unseen;
    assert v in queue[..c];
    forall n | n in unseen
      ensures Within(w, n, d + 1)
    {
      assert Within(w, v, d) && n in Neighbors(w.net, v);
    }
  }

  /** The head of the current layer is no nearer than anything visited before it. */
  lemma HeadIsFarthest(w: World, visited: seq<Gid>, queue: seq<Gid>, c: nat, d: nat, k: nat, u: Gid)
    requires Layered(w, visited, queue, c, d) && c > 0
    requires queue[0] !in visited && Within(w, queue[0], k) && u in visited
    ensures Within(w, u, k)
  {
    if k < d {
      WithinMonotone(w, queue[0], k, d - 1);
      assert false;
    }
    WithinMonotone(w, u, d, k);
  }

  lemma OrderVisits(w: World, visited: seq<Gid>, queue: seq<Gid>, c: nat, d: nat)
    requires Layered(w, visited, queue, c, d) && c > 0
    requires queue[0] !in visited && InOrder(w, visited)
    ensures InOrder(w, visited + [queue[0]])
  {
    var now := visited + [queue[0]];
    forall i, j, k: nat | 0 <= i < j < |now| && Within(w, now[j], k)
      ensures Within(w, now[i], k)
    {
      if j == |visited| {
        HeadIsFarthest(w, visited, queue, c, d, k, now[i]);
      } else {
        assert now[j] == visited[j] && now[i] == visited[i];
      }
    }
  }

  lemma LayeredIsClosestFirst(w: World, visited: seq<Gid>, queue: seq<Gid>, c: nat, d: nat)
    requires Layered(w, visited, queue, c, d) && InOrder(w, visited)
    ensures ClosestFirst(w, visited)
    ensures forall v | v in visited :: Reaches(w, v)
  {
    forall v, g, k: nat | v in visited && g !in visited && Within(w, g, k)
      ensures Within(w, v, k)
    {
      if k < d {
        WithinMonotone(w, g, k, d - 1);
        assert false;
      }
      WithinMonotone(w, v, d, k);
    }
  }

  lemma {:induction false} ExhaustedCovers(w: World, visited: seq<Gid>, d: nat, g: Gid, k: nat)
    requires Layered(w, visited, [], 0, d) && Within(w, g, k)
    ensures g in visited
    decreases k
  {
    if k <= d {
      WithinMonotone(w, g, k, d);
    } else if Within(w, g, k - 1) {
      ExhaustedCovers(w, visited, d, g, k - 1);
    } else {
      var p :| Within(w, p, k - 1) && g in Neighbors(w.net, p);
      ExhaustedCovers(w, visited, d, p, k - 1);
    }
  }

  // ----- Merging the reported edges -----------------------------------------------------------

  /** The reports of one edge, in order. */
  function Select(es: seq<Edge>, id: EdgeId): seq<Edge> {
    if es == [] then []
    else Select(es[..|es| - 1], id) + if es[|es| - 1].id == id then [es[|es| - 1]] else []
  }

  function Ids(es: seq<Edge>): set<EdgeId> {
    set e | e in es :: e.id
  }

  lemma IdsAppend(es: seq<Edge>, e: Edge)
    ensures Ids(es + [e]) == Ids(es) + {e.id}
  {
    assert e in es + [e];
    forall e' | e' in es
      ensures e' in es + [e]
    {
    }
  }

  lemma {:induction false} SelectFacts(es: seq<Edge>, id: EdgeId)
    ensures forall e :: e in Select(es, id) <==> e in es && e.id == id
    ensures Select(es, id) != [] <==> id in Ids(es)
    ensures Select(es, id) != [] ==> OneEdge(Select(es, id))
  {
    if es == [] {
    } else {
      SelectFacts(es[..|es| - 1], id);
      IdsAppend(es[..|es| - 1], es[|es| - 1]);
      assert es == es[..|es| - 1] + [es[|es| - 1]];
      if Select(es, id) != [] {
        assert Select(es, id)[0] in Select(es, id);
      }
    }
  }

  lemma SelectAppend(es: seq<Edge>, e: Edge, id: EdgeId)
    ensures Select(es + [e], id) == Select(es, id) + if e.id == id then [e] else []
  {
    assert (es + [e])[..|es|] == es;
  }

  predicate DistinctIds(es: seq<Edge>) {
    forall i, j | 0 <= i < j < |es| :: es[i].id != es[j].id
  }

  /** The edge is the fold of all reports of its id. */
  predicate IsFold(all: seq<Edge>, e: Edge) {
    Select(all, e.id) != [] && e == Fold(Select(all, e.id))
  }

  /**
   `edges` holds one object per edge id, the fold of every report of that id; ids ignored from the
   start are kept out unless a seed edge carries them.
   */
  predicate EdgesFold(seeds: seq<Edge>, ignored: set<EdgeId>, log: seq<Edge>, edges: seq<Edge>) {
    && DistinctIds(edges)
    && Ids(edges) == Ids(seeds) + (Ids(log) - ignored)
    && forall i | 0 <= i < |edges| :: IsFold(seeds + log, edges[i])
  }

  /** `gid2edge`: where the object of an id lives. */
  ghost predicate IndexOk(edges: seq<Edge>, index: map<EdgeId, nat>) {
    && index.Keys == Ids(edges)
    && (forall id | id in index :: index[id] < |edges| && edges[index[id]].id == id)
    && (forall i | 0 <= i < |edges| :: edges[i].id in index && index[edges[i].id] == i)
  }

  lemma IndexKeys(edges: seq<Edge>, index: map<EdgeId, nat>)
    requires IndexOk(edges, index)
    ensures index.Keys == Ids(edges)
  {
  }

  lemma FoldCarries(all: seq<Edge>, e: Edge, e': Edge)
    requires IsFold(all, e') && e'.id != e.id
    ensures IsFold(all + [e], e')
  {
    SelectAppend(all, e, e'.id);
    assert Select(all, e'.id) + [] == Select(all, e'.id);
  }

  lemma FoldMerges(all: seq<Edge>, e: Edge, e': Edge)
    requires IsFold(all, e') && e'.id == e.id
    ensures IsFold(all + [e], Merge(e', e))
  {
    SelectAppend(all, e, e.id);
    FoldAppend(Select(all, e.id), e);
  }

  lemma FoldStarts(all: seq<Edge>, e: Edge)
    requires e.id !in Ids(all)
    ensures IsFold(all + [e], e)
  {
    SelectFacts(all, e.id);
    SelectAppend(all, e, e.id);
    assert Select(all + [e], e.id) == [e];
  }

  lemma IdsUpdate(edges: seq<Edge>, i: nat, e: Edge)
    requires i < |edges| && edges[i].id == e.id
    ensures Ids(edges[i := e]) == Ids(edges)
  {
    var edges' := edges[i := e];
    forall id
      ensures id in Ids(edges') <==> id in Ids(edges)
    {
      if id in Ids(edges) {
        var k :| 0 <= k < |edges| && edges[k].id == id;
        assert edges'[k] in edges';
      }
      if id in Ids(edges') {
        var k :| 0 <= k < |edges'| && edges'[k].id == id;
        assert edges[k] in edges;
      }
    }
  }

  /** A report of a known edge is merged into its object. */
  lemma AbsorbKnown(seeds: seq<Edge>, ignored: set<EdgeId>, log: seq<Edge>, edges: seq<Edge>, i: nat, e: Edge)
    requires EdgesFold(seeds, ignored, log, edges) && i < |edges| && edges[i].id == e.id
    ensures EdgesFold(seeds, ignored, log + [e], edges[i := Merge(edges[i], e)])
  {
    var edges' := edges[i := Merge(edges[i], e)];
    assert seeds + (log + [e]) == (seeds + log) + [e];
    forall k | 0 <= k < |edges'|
      ensures IsFold((seeds + log) + [e], edges'[k])
    {
      if k == i {
        FoldMerges(seeds + log, e, edges[i]);
      } else {
        FoldCarries(seeds + log, e, edges[k]);
      }
    }
    IdsUpdate(edges, i, Merge(edges[i], e));
    IdsAppend(log, e);
    assert edges[i] in edges;
    assert Ids(edges') == Ids(seeds) + (Ids(log + [e]) - ignored);
  }

  lemma FoldsCarry(all: seq<Edge>, edges: seq<Edge>, e: Edge)
    requires e.id !in Ids(edges) && forall k | 0 <= k < |edges| :: IsFold(all, edges[k])
    ensures forall k | 0 <= k < |edges| :: IsFold(all + [e], edges[k]) && edges[k].id != e.id
  {
    forall k | 0 <= k < |edges|
      ensures IsFold(all + [e], edges[k]) && edges[k].id != e.id
    {
      assert edges[k] in edges;
      FoldCarries(all, e, edges[k]);
    }
  }

  /** A report whose id was ignored from the start leaves no trace. */
  lemma AbsorbIgnored(seeds: seq<Edge>, ignored: set<EdgeId>, log: seq<Edge>, edges: seq<Edge>, e: Edge)
    requires EdgesFold(seeds, ignored, log, edges) && e.id !in Ids(edges) && e.id in ignored
    ensures EdgesFold(seeds, ignored, log + [e], edges)
  {
    assert seeds + (log + [e]) == (seeds + log) + [e];
    FoldsCarry(seeds + log, edges, e);
    IdsAppend(log, e);
  }

  /** The first report of an unknown edge becomes its object. */
  lemma AbsorbNew(seeds: seq<Edge>, ignored: set<EdgeId>, log: seq<Edge>, edges: seq<Edge>, e: Edge)
    requires EdgesFold(seeds, ignored, log, edges) && e.id !in Ids(edges) && e.id !in ignored
    ensures EdgesFold(seeds, ignored, log + [e], edges + [e])
  {
    assert seeds + (log + [e]) == (seeds + log) + [e];
    FoldsCarry(seeds + log, edges, e);
    IdsAppend(log, e);
    IdsAppend(edges, e);
    IdsConcat(seeds, log);
    FoldStarts(seeds + log, e);
  }

  lemma IdsConcat(a: seq<Edge>, b: seq<Edge>)
    ensures Ids(a + b) == Ids(a) + Ids(b)
  {
    forall id
      ensures id in Ids(a + b) <==> id in Ids(a) + Ids(b)
    {
      if id in Ids(a) {
        var e :| e in a && e.id == id;
        assert e in a + b;
      }
      if id in Ids(b) {
        var e :| e in b && e.id == id;
        assert e in a + b;
      }
    }
  }

  lemma IndexGrows(edges: seq<Edge>, index: map<EdgeId, nat>, e: Edge)
    requires IndexOk(edges, index) && e.id !in index
    ensures IndexOk(edges + [e], index[e.id := |edges|])
  {
    IdsAppend(edges, e);
  }

  lemma IndexStays(edges: seq<Edge>, index: map<EdgeId, nat>, i: nat, e: Edge)
    requires IndexOk(edges, index) && i < |edges| && edges[i].id == e.id
    ensures IndexOk(edges[i := e], index)
  {
    IdsUpdate(edges, i, e);
  }

  lemma IndexAt(edges: seq<Edge>, index: map<EdgeId, nat>, id: EdgeId)
    requires IndexOk(edges, index)
    ensures id in index ==> index[id] < |edges| && edges[index[id]].id == id
    ensures id in index <==> id in Ids(edges)
  {
  }

  /** One report: merged into its object, refused, or stored as a new object. */
  method AbsorbReport(edges: seq<Edge>, index: map<EdgeId, nat>, ignored: set<EdgeId>, e: Edge,
                      ghost seeds: seq<Edge>, ghost ignored0: set<EdgeId>, ghost log: seq<Edge>)
    returns (edges': seq<Edge>, index': map<EdgeId, nat>, ignored': set<EdgeId>)
    requires EdgesFold(seeds, ignored0, log, edges) && IndexOk(edges, index) && ignored == ignored0 + index.Keys
    ensures EdgesFold(seeds, ignored0, log + [e], edges') && IndexOk(edges', index')
    ensures ignored' == ignored0 + index'.Keys
  {
    hide EdgesFold, IndexOk, Ids, IsFold, Merge;
    edges', index', ignored' := edges, index, ignored;
    IndexAt(edges, index, e.id);
    if e.id in index {
      var at := index[e.id];
      AbsorbKnown(seeds, ignored0, log, edges, at, e);
      MergeKeepsId(edges[at], e);
      IndexStays(edges, index, at, Merge(edges[at], e));
      edges' := edges[at := Merge(edges[at], e)];
    } else if e.id in ignored {
      AbsorbIgnored(seeds, ignored0, log, edges, e);
    } else {
      AbsorbNew(seeds, ignored0, log, edges, e);
      IndexGrows(edges, index, e);
      ignored' := ignored + {e.id};
      edges', index' := edges + [e], index[e.id := |edges|];
    }
  }

  lemma MergeKeepsId(a: Edge, b: Edge)
    ensures Merge(a, b).id == a.id
  {
  }

  /** The loop over the reports of one entity. */
  method AbsorbReports(edges: seq<Edge>, index: map<EdgeId, nat>, ignored: set<EdgeId>, reports: seq<Edge>,
                       ghost seeds: seq<Edge>, ghost ignored0: set<EdgeId>, ghost log: seq<Edge>)
    returns (edges': seq<Edge>, index': map<EdgeId, nat>, ignored': set<EdgeId>)
    requires EdgesFold(seeds, ignored0, log, edges) && IndexOk(edges, index) && ignored == ignored0 + index.Keys
    ensures EdgesFold(seeds, ignored0, log + reports, edges') && IndexOk(edges', index')
    ensures ignored' == ignored0 + index'.Keys
  {
    hide EdgesFold, IndexOk;
    edges', index', ignored' := edges, index, ignored;
    assert log + reports[..0] == log;
    for i := 0 to |reports|
      invariant EdgesFold(seeds, ignored0, log + reports[..i], edges') && IndexOk(edges', index')
      invariant ignored' == ignored0 + index'.Keys
    {
      assert log + reports[..i + 1] == (log + reports[..i]) + [reports[i]];
      edges', index', ignored' :=
        AbsorbReport(edges', index', ignored', reports[i], seeds, ignored0, log + reports[..i]);
    }
    assert reports[..|reports|] == reports;
  }

  /** The loop that queues the neighbours not ignored at this moment. */
  method QueueNeighbors(queue: seq<Gid>, neighbors: seq<Gid>, ignored: set<Gid>, ghost w: World,
          ghost visited: seq<Gid>)
    returns (queue': seq<Gid>)
    requires ignored == w.ignored + Elements(visited)
    ensures queue' == queue + Unseen(w, visited, neighbors)
  {
    queue' := queue;
    for i := 0 to |neighbors|
      invariant queue' == queue + Unseen(w, visited, neighbors[..i])
    {
      assert neighbors[..i + 1][..i] == neighbors[..i];
      if neighbors[i] !in ignored {
        queue' := queue' + [neighbors[i]];
      }
    }
    assert neighbors[..|neighbors|] == neighbors;
  }

  // ----- The expansion loop ---------------------------------------------------------------------

  /** The entities reachable from any member stay inside. */
  ghost predicate Closed(net: Network, universe: set<Gid>) {
    forall g, n | g in universe && n in Neighbors(net, g) :: n in universe
  }

  /** What one expansion guarantees about its visits. */
  ghost predicate Expanded(w: World, visited: seq<Gid>, maxIterations: Option<int>) {
    && Distinct(visited)
    && (forall v | v in visited :: v !in w.ignored && Reaches(w, v))
    && ClosestFirst(w, visited)
    && (maxIterations.Some? ==> |visited| <= maxIterations.value || visited == [])
    && (maxIterations.None? || |visited| < maxIterations.value ==> forall g :: g in visited <==> Reaches(w, g))
  }

  /** Moves on to the next layer if the current one is used up. */
  lemma Normalize(w: World, visited: seq<Gid>, queue: seq<Gid>, c: nat, d: nat) returns (c': nat, d': nat)
    requires queue != [] && Layered(w, visited, queue, c, d)
    ensures c' > 0 && Layered(w, visited, queue, c', d')
  {
    c', d' := c, d;
    if c == 0 {
      LayerAdvances(w, visited, queue, d);
      c', d' := |queue|, d + 1;
    }
  }

  // ----- The loop as a function -------------------------------------------------------------------

  datatype Front = Front(visited: seq<Gid>, queue: seq<Gid>)

  /** The neighbours that are not ignored when they are found. */
  function Unseen(w: World, visited: seq<Gid>, ns: seq<Gid>): seq<Gid> {
    if ns == [] then []
    else Unseen(w, visited, ns[..|ns| - 1])
         + var n := ns[|ns| - 1]; if n in w.ignored || n in visited then [] else [n]
  }

  /** One turn of the loop: drop the head, or visit it. */
  function Turn(w: World, f: Front): Front
    requires f.queue != []
  {
    var head := f.queue[0];
    if head in w.ignored || head in f.visited then f.(queue := f.queue[1..])
    else
      var visited := f.visited + [head];
      Front(visited, f.queue[1..] + Unseen(w, visited, Neighbors(w.net, head)))
  }

  /** The state after `n` turns; an empty queue stays as it is. */
  function After(w: World, n: nat): Front {
    if n == 0 then Front([], w.seeds)
    else var f := After(w, n - 1); if f.queue == [] then f else Turn(w, f)
  }

  lemma AfterStart(w: World)
    ensures After(w, 0) == Front([], w.seeds)
  {
  }

  lemma AfterStep(w: World, n: nat)
    ensures After(w, n).queue != [] ==> After(w, n + 1) == Turn(w, After(w, n))
  {
  }

  lemma TurnSkips(w: World, f: Front)
    requires f.queue != [] && (f.queue[0] in w.ignored || f.queue[0] in f.visited)
    ensures Turn(w, f) == Front(f.visited, f.queue[1..])
  {
  }

  lemma {:induction false} UnseenFacts(w: World, visited: seq<Gid>, ns: seq<Gid>)
    ensures forall n :: n in Unseen(w, visited, ns) <==> n in ns && n !in w.ignored && n !in visited
  {
    if ns == [] {
    } else {
      UnseenFacts(w, visited, ns[..|ns| - 1]);
      assert ns == ns[..|ns| - 1] + [ns[|ns| - 1]];
    }
  }

  ghost predicate Sound(w: World, f: Front, c: nat, d: nat) {
    && Layered(w, f.visited, f.queue, c, d) && InOrder(w, f.visited) && Distinct(f.visited)
    && forall v | v in f.visited :: v !in w.ignored
  }

  lemma TurnSound(w: World, f: Front, c: nat, d: nat) returns (c': nat, d': nat)
    requires f.queue != [] && Sound(w, f, c, d)
    ensures Sound(w, Turn(w, f), c', d')
  {
    hide Layered, InOrder, Unseen, Neighbors;
    c', d' := Normalize(w, f.visited, f.queue, c, d);
    if f.queue[0] in w.ignored || f.queue[0] in f.visited {
      LayerSkips(w, f.visited, f.queue, c', d');
    } else {
      var visited := f.visited + [f.queue[0]];
      var unseen := Unseen(w, visited, Neighbors(w.net, f.queue[0]));
      UnseenFacts(w, visited, Neighbors(w.net, f.queue[0]));
      OrderVisits(w, f.visited, f.queue, c', d');
      LayerVisits(w, f.visited, f.queue, c', d', unseen);
    }
    c' := c' - 1;
  }

  lemma {:induction false} AfterSound(w: World, n: nat) returns (c: nat, d: nat)
    ensures Sound(w, After(w, n), c, d)
  {
    if n == 0 {
      LayeredStarts(w);
      c, d := |w.seeds|, 0;
    } else {
      c, d := AfterSound(w, n - 1);
      if After(w, n - 1).queue != [] {
        c, d := TurnSound(w, After(w, n - 1), c, d);
      }
    }
  }

  /** The breadth-first guarantees, after any number of turns. */
  lemma AfterExpands(w: World, n: nat)
    ensures var f := After(w, n);
            && Distinct(f.visited)
            && (forall v | v in f.visited :: v !in w.ignored && Reaches(w, v))
            && ClosestFirst(w, f.visited)
            && (f.queue == [] ==> forall g | Reaches(w, g) :: g in f.visited)
  {
    var c, d := AfterSound(w, n);
    var f := After(w, n);
    LayeredIsClosestFirst(w, f.visited, f.queue, c, d);
    if f.queue == [] {
      forall g, k: nat | Within(w, g, k)
        ensures g in f.visited
      {
        ExhaustedCovers(w, f.visited, d, g, k);
      }
    }
  }

  /** A closed universe around the seeds holds every queued entity. */
  lemma {:induction false} AfterInside(w: World, n: nat, universe: set<Gid>)
    requires Closed(w.net, universe) && Elements(w.seeds) <= universe
    ensures forall g | g in After(w, n).queue :: g in universe
  {
    if n == 0 {
      forall g | g in w.seeds
        ensures g in universe
      {
        assert g in Elements(w.seeds);
      }
    } else {
      AfterInside(w, n - 1, universe);
      var f := After(w, n - 1);
      if f.queue != [] {
        UnseenFacts(w, f.visited + [f.queue[0]], Neighbors(w.net, f.queue[0]));
      }
    }
  }

  lemma LoopEnds(w: World, turns: nat, visited: seq<Gid>, queue: seq<Gid>, maxIterations: Option<int>)
    requires Front(visited, queue) == After(w, turns)
    requires maxIterations.Some? ==> |visited| <= maxIterations.value || visited == []
    requires queue == [] || (maxIterations.Some? && |visited| >= maxIterations.value)
    ensures Expanded(w, visited, maxIterations)
  {
    AfterExpands(w, turns);
  }

  lemma {:induction false} SeedsAreFolds(es: seq<Edge>)
    requires DistinctIds(es)
    ensures forall k | 0 <= k < |es| :: IsFold(es, es[k])
  {
    if es == [] {
    } else {
      var init, e := es[..|es| - 1], es[|es| - 1];
      SeedsAreFolds(init);
      assert es == init + [e];
      FoldsCarry(init, init, e);
      FoldStarts(init, e);
    }
  }

  lemma SeedsFold(seeds: seq<Edge>, ignored: set<EdgeId>)
    requires DistinctIds(seeds)
    ensures EdgesFold(seeds, ignored, [], seeds)
  {
    SeedsAreFolds(seeds);
    assert seeds + [] == seeds;
  }

  /** What bounds the remaining visits: the cap, or else the entities of the universe not ignored yet. */
  ghost function Budget(maxIterations: Option<int>, iteration: nat, universe: set<Gid>, ignored: set<Gid>): int {
    if maxIterations.None? then |universe - ignored| else maxIterations.value - iteration
  }

  lemma BudgetShrinks(maxIterations: Option<int>, iteration: nat, universe: set<Gid>, ignored: set<Gid>, g: Gid)
    requires g !in ignored && (maxIterations.None? ==> g in universe)
    ensures Budget(maxIterations, iteration + 1, universe, ignored + {g})
          < Budget(maxIterations, iteration, universe, ignored)
  {
    assert universe - ignored == if g in universe then universe - (ignored + {g}) + {g} else universe - (ignored + {g});
  }

  lemma BudgetLeft(maxIterations: Option<int>, iteration: nat, universe: set<Gid>, ignored: set<Gid>)
    requires maxIterations.None? || iteration < maxIterations.value
    ensures Budget(maxIterations, iteration, universe, ignored) >= 0
  {
  }

  lemma ReportsOfNobody(net: Network)
    ensures ReportsOf(net, []) == []
  {
  }

  lemma AppendAssoc<T>(a: seq<T>, b: seq<T>, x: T)
    ensures (a + b) + [x] == a + (b + [x])
  {
  }

  lemma ReportsAppend(net: Network, visited: seq<Gid>, g: Gid)
    ensures ReportsOf(net, visited + [g]) == ReportsOf(net, visited) + ReportsAt(net, g)
    ensures Elements(visited + [g]) == Elements(visited) + {g}
  {
    assert (visited + [g])[..|visited|] == visited;
  }

  /** What the visited entities reported: nothing from one whose lookup failed, else its list ... */
  lemma ReportsOfOne(net: Network, g: Gid)
    ensures ReportsOf(net, [g]) == if net(g).Found? then net(g).reports else []
  {
    assert [g][..0] == [];
    ReportsOfNobody(net);
  }

  /** ... and the lists in the order of the visits. */
  lemma {:induction false} ReportsSplit(net: Network, a: seq<Gid>, b: seq<Gid>)
    ensures ReportsOf(net, a + b) == ReportsOf(net, a) + ReportsOf(net, b)
  {
    hide ReportsOf, ReportsAt;
    if b == [] {
      ReportsOfNobody(net);
      assert a + b == a;
      assert ReportsOf(net, a) + [] == ReportsOf(net, a);
    } else {
      var init, last := b[..|b| - 1], b[|b| - 1];
      ReportsSplit(net, a, init);
      ReportsAppend(net, init, last);
      ReportsAppend(net, a + init, last);
      assert b == init + [last] && a + b == (a + init) + [last];
      JoinAssociates(ReportsOf(net, a), ReportsOf(net, init), ReportsAt(net, last));
    }
  }

  /** The queue is first in, first out: the head is visited, and what it finds goes to the end, in order. */
  lemma TurnMeans(w: World, f: Front)
    requires f.queue != []
    ensures var head, f' := f.queue[0], Turn(w, f);
            if head in w.ignored || head in f.visited then f' == Front(f.visited, f.queue[1..])
            else
              && f'.visited == f.visited + [head]
              && f'.queue == f.queue[1..] +
                 if w.net(head).Found? then Unseen(w, f.visited + [head], w.net(head).neighbors) else []
  {
  }

  lemma UnseenOne(w: World, visited: seq<Gid>, n: Gid)
    ensures Unseen(w, visited, [n]) == if n in w.ignored || n in visited then [] else [n]
  {
    assert [n][..0] == [];
    assert Unseen(w, visited, []) == [];
  }

  lemma {:induction false} UnseenSplits(w: World, visited: seq<Gid>, a: seq<Gid>, b: seq<Gid>)
    ensures Unseen(w, visited, a + b) == Unseen(w, visited, a) + Unseen(w, visited, b)
  {
    if b == [] {
      assert a + b == a;
    } else {
      UnseenSplits(w, visited, a, b[..|b| - 1]);
      assert (a + b)[..|a + b| - 1] == a + b[..|b| - 1];
    }
  }

  class Collector {
    const net: Network
    /** Every entity whose neighbours were asked for, in order. */
    var asked: seq<Gid>

    constructor (net: Network)
      ensures this.net == net && asked == []
    {
      this.net, asked := net, [];
    }

    method GetNeighborsWithEdges(g: Gid) returns (r: Discovery)
      modifies this
      ensures r == net(g) && asked == old(asked) + [g]
    {
      asked := asked + [g];
      r := net(g);
    }

    /**
     The expansion.  Without a cap it needs a finite closed universe around the seeds to end.
     The two ignore sets come back as the caller's own sets are left: updated.
     */
    method ExpandGraphBfs(seeds: seq<Gid>, seedEdges: seq<Edge>, ignoreEntities: set<Gid>, ignoreEdges: set<EdgeId>,
                          maxIterations: Option<int>, ghost universe: set<Gid>)
      returns (nodes: seq<Gid>, edges: seq<Edge>, ignoredEntities: set<Gid>, ignoredEdges: set<EdgeId>)
      requires DistinctIds(seedEdges)
      requires maxIterations.None? ==> Closed(net, universe) && Elements(seeds) <= universe
      modifies this
      ensures old(asked) <= asked
      ensures var visited := asked[|old(asked)|..];
              && nodes == seeds + visited
              && ignoredEntities == ignoreEntities + Elements(visited)
              && Expanded(World(net, seeds, ignoreEntities), visited, maxIterations)
              && EdgesFold(seedEdges, ignoreEdges, ReportsOf(net, visited), edges)
      ensures ignoredEdges == ignoreEdges + Ids(edges)
    {
      hide EdgesFold, IndexOk, Expanded, After, Turn, Closed, Budget, ReportsOf, Unseen;
      ReportsOfNobody(net);
      nodes, edges, ignoredEntities := seeds, seedEdges, ignoreEntities;
      var index: map<EdgeId, nat> := map[];
      index, ignoredEdges := IndexSeeds(seedEdges, ignoreEdges);
      var queue, iteration := seeds, 0;
      ghost var w := World(net, seeds, ignoreEntities);
      ghost var visited: seq<Gid>, turns: nat := [], 0;
      AfterStart(w);
      while queue != [] && (maxIterations.None? || iteration < maxIterations.value)
        invariant Front(visited, queue) == After(w, turns)
        invariant asked == old(asked) + visited && nodes == seeds + visited && iteration == |visited|
        invariant ignoredEntities == ignoreEntities + Elements(visited)
        invariant maxIterations.Some? ==> iteration <= maxIterations.value || iteration == 0
        invariant EdgesFold(seedEdges, ignoreEdges, ReportsOf(net, visited), edges)
        invariant IndexOk(edges, index) && ignoredEdges == ignoreEdges + index.Keys
        decreases Budget(maxIterations, iteration, universe, ignoredEntities), |queue|
      {
        var current := queue[0];
        BudgetLeft(maxIterations, iteration, universe, ignoredEntities);
        if maxIterations.None? {
          AfterInside(w, turns, universe);
        }
        turns := turns + 1;
        AfterStep(w, turns - 1);
        if current in ignoredEntities {
          TurnSkips(w, Front(visited, queue));
          queue := queue[1..];
          continue;
        }
        BudgetShrinks(maxIterations, iteration, universe, ignoredEntities, current);
        nodes, ignoredEntities, iteration := nodes + [current], ignoredEntities + {current}, iteration + 1;
        queue, edges, index, ignoredEdges :=
          VisitHead(queue, edges, index, ignoredEntities, ignoredEdges, w, visited, seedEdges, ignoreEdges);
        AppendAssoc(old(asked), visited, current);
        AppendAssoc(seeds, visited, current);
        visited := visited + [current];
      }
      LoopEnds(w, turns, visited, queue, maxIterations);
      IndexKeys(edges, index);
      assert asked[|old(asked)|..] == visited;
    }

    /** One visit: ask the head for its neighbours and reports, and absorb both. */
    method VisitHead(queue: seq<Gid>, edges: seq<Edge>, index: map<EdgeId, nat>,
                     ignoredEntities: set<Gid>, ignoredEdges: set<EdgeId>,
                     ghost w: World, ghost visited: seq<Gid>, ghost seedEdges: seq<Edge>,
                     ghost ignoreEdges: set<EdgeId>)
      returns (queue': seq<Gid>, edges': seq<Edge>, index': map<EdgeId, nat>, ignoredEdges': set<EdgeId>)
      requires w.net == net && queue != [] && queue[0] !in w.ignored && queue[0] !in visited
      requires ignoredEntities == w.ignored + Elements(visited) + {queue[0]}
      requires EdgesFold(seedEdges, ignoreEdges, ReportsOf(net, visited), edges) && IndexOk(edges, index)
      requires ignoredEdges == ignoreEdges + index.Keys
      modifies this
      ensures asked == old(asked) + [queue[0]]
      ensures Elements(visited + [queue[0]]) == Elements(visited) + {queue[0]}
      ensures Front(visited + [queue[0]], queue') == Turn(w, Front(visited, queue))
      ensures EdgesFold(seedEdges, ignoreEdges, ReportsOf(net, visited + [queue[0]]), edges') && IndexOk(edges', index')
      ensures ignoredEdges' == ignoreEdges + index'.Keys
    {
      queue', edges', index', ignoredEdges' := queue[1..], edges, index, ignoredEdges;
      ReportsAppend(net, visited, queue[0]);
      var found := GetNeighborsWithEdges(queue[0]);
      if found.Failed? {
        assert ReportsOf(net, visited) + [] == ReportsOf(net, visited) && queue' + [] == queue';
        return;
      }
      queue' := QueueNeighbors(queue', found.neighbors, ignoredEntities, w, visited + [queue[0]]);
      edges', index', ignoredEdges' :=
        AbsorbReports(edges, index, ignoredEdges, found.reports, seedEdges, ignoreEdges, ReportsOf(net, visited));
    }

    /** The two loops that register the seed edges. */
    static method IndexSeeds(seedEdges: seq<Edge>, ignoreEdges: set<EdgeId>)
      returns (index: map<EdgeId, nat>, ignoredEdges: set<EdgeId>)
      requires DistinctIds(seedEdges)
      ensures IndexOk(seedEdges, index) && ignoredEdges == ignoreEdges + index.Keys
      ensures EdgesFold(seedEdges, ignoreEdges, [], seedEdges)
    {
      index, ignoredEdges := map[], ignoreEdges;
      for i := 0 to |seedEdges|
        invariant IndexOk(seedEdges[..i], index) && ignoredEdges == ignoreEdges + index.Keys
      {
        var e := seedEdges[i];
        assert seedEdges[..i + 1] == seedEdges[..i] + [e];
        IndexGrows(seedEdges[..i], index, e);
        index, ignoredEdges := index[e.id := i], ignoredEdges + {e.id};
      }
      assert seedEdges[..|seedEdges|] == seedEdges;
      SeedsFold(seedEdges, ignoreEdges);
    }
  }

  // ----- The visiting order does not show in the result -------------------------------------------

  lemma {:induction false} SelectCounts(es: seq<Edge>, id: EdgeId, e: Edge)
    ensures multiset(Select(es, id))[e] == if e.id == id then multiset(es)[e] else 0
  {
    if es == [] {
    } else {
      SelectCounts(es[..|es| - 1], id, e);
      assert es == es[..|es| - 1] + [es[|es| - 1]];
    }
  }

  lemma SelectPermutes(a: seq<Edge>, b: seq<Edge>, id: EdgeId)
    requires multiset(a) == multiset(b)
    ensures multiset(Select(a, id)) == multiset(Select(b, id))
  {
    forall e
      ensures multiset(Select(a, id))[e] == multiset(Select(b, id))[e]
    {
      SelectCounts(a, id, e);
      SelectCounts(b, id, e);
    }
  }

  lemma SwapLast<T>(a: multiset<T>, b: multiset<T>, c: multiset<T>)
    ensures (a + b) + c == (a + c) + b
  {
  }

  lemma BagAppends(net: Network, visited: seq<Gid>, g: Gid)
    ensures multiset(ReportsOf(net, visited + [g])) == multiset(ReportsOf(net, visited)) + multiset(ReportsAt(net, g))
  {
    ReportsAppend(net, visited, g);
  }

  lemma {:induction false} ReportsPull(net: Network, visited: seq<Gid>, i: nat)
    requires i < |visited|
    ensures multiset(ReportsOf(net, visited))
         == multiset(ReportsOf(net, Without(visited, i))) + multiset(ReportsAt(net, visited[i]))
    decreases |visited|
  {
    hide ReportsOf, ReportsAt;
    var n := |visited|;
    var init, last := visited[..n - 1], visited[n - 1];
    assert visited == init + [last];
    BagAppends(net, init, last);
    if i == n - 1 {
      assert Without(visited, i) == init;
    } else {
      ReportsPull(net, init, i);
      assert Without(visited, i) == Without(init, i) + [last];
      BagAppends(net, Without(init, i), last);
      SwapLast(multiset(ReportsOf(net, Without(init, i))), multiset(ReportsAt(net, visited[i])),
          multiset(ReportsAt(net, last)));
    }
  }

  lemma {:induction false} ReportsPermute(net: Network, a: seq<Gid>, b: seq<Gid>)
    requires multiset(a) == multiset(b)
    ensures multiset(ReportsOf(net, a)) == multiset(ReportsOf(net, b))
    decreases |a|
  {
    assert |multiset(a)| == |a| && |multiset(b)| == |b|;
    if b == [] {
    } else {
      var x := b[|b| - 1];
      WithoutBag(b, |b| - 1);
      assert Without(b, |b| - 1) == b[..|b| - 1];
      assert x in multiset(b);
      assert x in multiset(a);
      var i :| 0 <= i < |a| && a[i] == x;
      WithoutBag(a, i);
      ReportsPull(net, a, i);
      ReportsPermute(net, Without(a, i), b[..|b| - 1]);
    }
  }

  /** Two expansions that visit the same entities hold the same edges, with the same statistics. */
  lemma EdgesIgnoreOrder(net: Network, seeds: seq<Edge>, ignored: set<EdgeId>, a: seq<Gid>, b: seq<Gid>,
          ea: seq<Edge>, eb: seq<Edge>)
    requires Distinct(a) && Distinct(b) && Elements(a) == Elements(b)
    requires EdgesFold(seeds, ignored, ReportsOf(net, a), ea) && EdgesFold(seeds, ignored, ReportsOf(net, b), eb)
    ensures forall e :: e in ea <==> e in eb
  {
    forall x
      ensures multiset(a)[x] == multiset(b)[x]
    {
      DistinctCounts(a, x);
      DistinctCounts(b, x);
      assert x in Elements(a) <==> x in Elements(b);
    }
    ReportsPermute(net, a, b);
    SameReportsSameEdges(seeds, ignored, ReportsOf(net, a), ReportsOf(net, b), ea, eb);
    SameReportsSameEdges(seeds, ignored, ReportsOf(net, b), ReportsOf(net, a), eb, ea);
  }

  lemma MultisetIds(a: seq<Edge>, b: seq<Edge>)
    requires multiset(a) == multiset(b)
    ensures Ids(a) == Ids(b)
  {
    forall e
      ensures e in a <==> e in b
    {
      assert e in multiset(a) <==> e in multiset(b);
    }
  }

  lemma SameReportsSameEdges(seeds: seq<Edge>, ignored: set<EdgeId>, la: seq<Edge>, lb: seq<Edge>, ea: seq<Edge>,
          eb: seq<Edge>)
    requires multiset(la) == multiset(lb)
    requires EdgesFold(seeds, ignored, la, ea) && EdgesFold(seeds, ignored, lb, eb)
    ensures forall e | e in ea :: e in eb
  {
    MultisetIds(la, lb);
    forall e | e in ea
      ensures e in eb
    {
      assert e.id in Ids(eb);
      var e' :| e' in eb && e'.id == e.id;
      SelectPermutes(seeds + la, seeds + lb, e.id);
      SelectFacts(seeds + la, e.id);
      FoldPermutation(Select(seeds + la, e.id), Select(seeds + lb, e.id));
    }
  }

  lemma {:induction false} WithinIgnoresSeedOrder(w: World, w': World, g: Gid, k: nat)
    requires w'.net == w.net && w'.ignored == w.ignored && forall s :: s in w.seeds <==> s in w'.seeds
    requires Within(w, g, k)
    ensures Within(w', g, k)
    decreases k
  {
    if k == 0 {
    } else {
      if Within(w, g, k - 1) {
        WithinIgnoresSeedOrder(w, w', g, k - 1);
      } else {
        var p :| Within(w, p, k - 1) && g in Neighbors(w.net, p);
        WithinIgnoresSeedOrder(w, w', p, k - 1);
      }
    }
  }

  /** Without a cap, the order of the seeds changes neither what is visited nor any edge. */
  lemma SeedOrderIrrelevant(w: World, w': World, seedEdges: seq<Edge>, ignoreEdges: set<EdgeId>,
                            a: seq<Gid>, b: seq<Gid>, ea: seq<Edge>, eb: seq<Edge>)
    requires w'.net == w.net && w'.ignored == w.ignored && forall s :: s in w.seeds <==> s in w'.seeds
    requires Expanded(w, a, None) && Expanded(w', b, None)
    requires EdgesFold(seedEdges, ignoreEdges, ReportsOf(w.net, a), ea)
              && EdgesFold(seedEdges, ignoreEdges, ReportsOf(w.net, b), eb)
    ensures Elements(a) == Elements(b)
    ensures forall e :: e in ea <==> e in eb
  {
    hide EdgesFold, ClosestFirst;
    forall g
      ensures g in a <==> g in b
    {
      if Reaches(w, g) {
        var k: nat :| Within(w, g, k);
        WithinIgnoresSeedOrder(w, w', g, k);
      }
      if Reaches(w', g) {
        var k: nat :| Within(w', g, k);
        WithinIgnoresSeedOrder(w', w, g, k);
      }
      assert Reaches(w, g) <==> Reaches(w', g);
    }
    assert Elements(a) == Elements(b);
    EdgesIgnoreOrder(w.net, seedEdges, ignoreEdges, a, b, ea, eb);
  }
}
