/** Socket edges, their traffic statistics, and the merging of repeated reports of one edge. */
module Edges {
  import opened Options
  import opened Sequences

  /** A global id.  Ids are strings; only their equality matters, so integers stand in for them. */
  type Gid = int

  /** A directed edge's id is built from its endpoints and its kind. */
  datatype EdgeId = EdgeId(source: Gid, kind: int, target: Gid)

  datatype Flow = Flow(start: real, end: real, size: int, packets: int)
  datatype Edge = Edge(id: EdgeId, weight: Option<real>, flow: Flow)

  function Min(a: real, b: real): real { if b < a then b else a }
  function Max(a: real, b: real): real { if b > a then b else a }

  function MergeFlow(a: Flow, b: Flow): Flow {
    Flow(Min(a.start, b.start), Max(a.end, b.end), a.size + b.size, a.packets + b.packets)
  }

  function Weight(w: Option<real>): real {
    if w.Some? then w.value else 0.0
  }

  /** Two reports of one edge: the weights add up (an absent one counts as zero), the flows merge. */
  function Merge(a: Edge, b: Edge): Edge {
    Edge(a.id, Some(Weight(a.weight) + Weight(b.weight)), MergeFlow(a.flow, b.flow))
  }

  class DataFlowStats {
    var startTime: real
    var endTime: real
    var dataSize: int
    var packetsCnt: int

    constructor (f: Flow)
      ensures View() == f
    {
      startTime, endTime, dataSize, packetsCnt := f.start, f.end, f.size, f.packets;
    }

    function View(): Flow
      reads this
    {
      Flow(startTime, endTime, dataSize, packetsCnt)
    }

    method MergeOther(other: DataFlowStats)
      modifies this
      ensures View() == MergeFlow(old(View()), old(other.View()))
    {
      dataSize := dataSize + other.dataSize;
      packetsCnt := packetsCnt + other.packetsCnt;
      endTime := Max(endTime, other.endTime);
      startTime := Min(startTime, other.startTime);
    }
  }

  /** What `merge_other` may be given. */
  datatype Offered = Socket(edge: SendToSocketEdge) | OtherClass

  class SendToSocketEdge {
    const id: EdgeId
    /** The class of the source node: a process or a thread. */
    const sourceType: int
    const dataFlow: DataFlowStats
    var weight: Option<real>

    constructor (e: Edge, sourceType: int)
      ensures View() == e && this.sourceType == sourceType && fresh(dataFlow)
    {
      id, weight, this.sourceType := e.id, e.weight, sourceType;
      dataFlow := new DataFlowStats(e.flow);
    }

    function View(): Edge
      reads this, dataFlow
    {
      Edge(id, weight, dataFlow.View())
    }

    /** Refuses (and changes nothing) an edge of another class, another source type or another id. */
    method MergeOther(offered: Offered) returns (ok: bool)
      modifies this, dataFlow
      ensures ok <==> offered.Socket? && offered.edge.sourceType == sourceType && offered.edge.id == id
      ensures View() == if ok then Merge(old(View()), old(offered.edge.View())) else old(View())
    {
      if offered.OtherClass? {
        return false;
      }
      var other := offered.edge;
      if sourceType != other.sourceType || id != other.id {
        return false;
      }
      if weight.None? {
        weight := Some(0.0);
      }
      if other.weight.Some? {
        weight := Some(weight.value + other.weight.value);
      }
      dataFlow.MergeOther(other.dataFlow);
      return true;
    }
  }

  // ----- Folding all reports of one edge --------------------------------------------------

  predicate OneEdge(es: seq<Edge>) {
    es != [] && forall e | e in es :: e.id == es[0].id
  }

  /** The edge object after the first report was stored and each later one merged into it. */
  function Fold(es: seq<Edge>): Edge
    requires es != []
  {
    if |es| == 1 then es[0] else Merge(Fold(es[..|es| - 1]), es[|es| - 1])
  }

  lemma FoldAppend(es: seq<Edge>, e: Edge)
    requires es != []
    ensures Fold(es + [e]) == Merge(Fold(es), e)
  {
    assert (es + [e])[..|es|] == es;
  }

  /** Two later reports of one edge may come in either order. */
  lemma MergeSwaps(a: Edge, b: Edge, c: Edge)
    ensures Merge(Merge(a, b), c) == Merge(Merge(a, c), b)
  {
  }

  lemma MergePair(a: Edge, b: Edge)
    requires a.id == b.id
    ensures Merge(a, b) == Merge(b, a)
  {
  }

  /** Any report could have been the last one to arrive. */
  lemma {:induction false} FoldPull(es: seq<Edge>, i: nat)
    requires OneEdge(es) && i < |es| && |es| >= 2
    ensures Fold(es) == Merge(Fold(Without(es, i)), es[i])
    decreases |es|
  {
    hide Merge;
    var n := |es|;
    if i == n - 1 {
      assert Without(es, i) == es[..n - 1];
    } else if n == 2 {
      assert Without(es, 0) == [es[1]] && es[..1] == [es[0]];
      MergePair(es[0], es[1]);
    } else {
      var init, last := es[..n - 1], es[n - 1];
      FoldPull(init, i);
      assert Without(es, i) == Without(init, i) + [last];
      FoldAppend(Without(init, i), last);
      MergeSwaps(Fold(Without(init, i)), es[i], last);
    }
  }

  /** The merged edge does not depend on the order in which its reports came. */
  lemma {:induction false} FoldPermutation(a: seq<Edge>, b: seq<Edge>)
    requires OneEdge(a) && multiset(a) == multiset(b)
    ensures b != [] && Fold(a) == Fold(b)
    decreases |a|
  {
    hide Fold, Merge, OneEdge, Without;
    assert |multiset(a)| == |a| && |multiset(b)| == |b|;
    OneIsSome(a);
    var n := |b|;
    var i := FindLast(a, b);
    InitBag(b);
    if n == 1 {
      assert a == [b[0]] && b == [b[0]];
    } else {
      var init, last := b[..n - 1], b[n - 1];
      FoldPull(a, i);
      WithoutBag(a, i);
      WithoutOne(a, i);
      FoldPermutation(Without(a, i), init);
      FoldAppend(init, last);
      assert b == init + [last];
    }
  }

  lemma OneIsSome(es: seq<Edge>)
    requires OneEdge(es)
    ensures es != []
  {
  }

  lemma FindLast(a: seq<Edge>, b: seq<Edge>) returns (i: nat)
    requires b != [] && multiset(a) == multiset(b)
    ensures i < |a| && a[i] == b[|b| - 1]
  {
    assert b[|b| - 1] in multiset(b);
    SameMembers(a, b);
    assert b[|b| - 1] in a;
    i :| 0 <= i < |a| && a[i] == b[|b| - 1];
  }

  lemma InitBag(b: seq<Edge>)
    requires b != []
    ensures multiset(b[..|b| - 1]) == multiset(b) - multiset{b[|b| - 1]}
  {
    assert b == b[..|b| - 1] + [b[|b| - 1]];
  }

  lemma WithoutOne(es: seq<Edge>, i: nat)
    requires OneEdge(es) && i < |es| && |es| >= 2
    ensures OneEdge(Without(es, i)) && |Without(es, i)| == |es| - 1
  {
    assert Without(es, i)[0] in es;
    assert forall e | e in Without(es, i) :: e in es;
  }

  // ----- What the fold is, statistic by statistic -------------------------------------------

  function TotalSize(es: seq<Edge>): int {
    if es == [] then 0 else TotalSize(es[..|es| - 1]) + es[|es| - 1].flow.size
  }

  function TotalPackets(es: seq<Edge>): int {
    if es == [] then 0 else TotalPackets(es[..|es| - 1]) + es[|es| - 1].flow.packets
  }

  function TotalWeight(es: seq<Edge>): real {
    if es == [] then 0.0 else TotalWeight(es[..|es| - 1]) + Weight(es[|es| - 1].weight)
  }

  lemma {:induction false} TotalsSplit(a: seq<Edge>, b: seq<Edge>)
    ensures TotalSize(a + b) == TotalSize(a) + TotalSize(b)
    ensures TotalPackets(a + b) == TotalPackets(a) + TotalPackets(b)
    ensures TotalWeight(a + b) == TotalWeight(a) + TotalWeight(b)
  {
    if b == [] {
      assert a + b == a;
    } else {
      TotalsSplit(a, b[..|b| - 1]);
      assert (a + b)[..|a + b| - 1] == a + b[..|b| - 1];
    }
  }

  /** An absent weight counts as zero. */
  lemma TotalsOfOne(e: Edge)
    ensures TotalSize([e]) == e.flow.size && TotalPackets([e]) == e.flow.packets
    ensures TotalWeight([e]) == if e.weight.Some? then e.weight.value else 0.0
  {
    assert [e][..0] == [];
    assert TotalSize([]) == 0 && TotalPackets([]) == 0 && TotalWeight([]) == 0.0;
  }

  /** Traffic is conserved: bytes, packets and weights are summed, the time span is the hull. */
  lemma FoldConserves(es: seq<Edge>)
    requires es != []
    ensures Fold(es).flow.size == TotalSize(es) && Fold(es).flow.packets == TotalPackets(es)
    ensures Fold(es).weight == if |es| == 1 then es[0].weight else Some(TotalWeight(es))
    ensures Weight(Fold(es).weight) == TotalWeight(es)
    ensures forall e | e in es :: Fold(es).flow.start <= e.flow.start && e.flow.end <= Fold(es).flow.end
    ensures (exists e | e in es :: e.flow.start == Fold(es).flow.start)
    ensures (exists e | e in es :: e.flow.end == Fold(es).flow.end)
  {
    hide Fold, TotalSize, TotalPackets, TotalWeight;
    FoldSums(es);
    var first, last := FoldHull(es);
  }

  lemma {:induction false} FoldSums(es: seq<Edge>)
    requires es != []
    ensures Fold(es).flow.size == TotalSize(es) && Fold(es).flow.packets == TotalPackets(es)
    ensures Fold(es).weight == if |es| == 1 then es[0].weight else Some(TotalWeight(es))
    ensures Weight(Fold(es).weight) == TotalWeight(es)
  {
    if |es| == 1 {
      assert es[..0] == [];
    } else {
      FoldSums(es[..|es| - 1]);
    }
  }

  lemma {:induction false} FoldHull(es: seq<Edge>) returns (first: Edge, last: Edge)
    requires es != []
    ensures forall e | e in es :: Fold(es).flow.start <= e.flow.start && e.flow.end <= Fold(es).flow.end
    ensures first in es && first.flow.start == Fold(es).flow.start
    ensures last in es && last.flow.end == Fold(es).flow.end
  {
    var n := |es| - 1;
    first, last := es[n], es[n];
    if |es| == 1 {
    } else {
      var s, t := FoldHull(es[..n]);
      assert es == es[..n] + [es[n]];
      first := if es[n].flow.start < s.flow.start then es[n] else s;
      last := if es[n].flow.end > t.flow.end then es[n] else t;
    }
  }
}
