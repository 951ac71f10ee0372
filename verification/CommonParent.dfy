/** Discovery of common parent processes: recursion over the parent links with memoised depths. */
module CommonParent {

  /**
   The processes: their parents (a pid <= 0 means none), the finite set of pids there are, and the
   configured depth `single_node_parent_depth`.  Parent links may form cycles.
   */
  datatype World = World(ppid: int -> int, pids: set<int>, maxDepth: int)

  ghost predicate Closed(w: World) {
    forall p | p in w.pids && w.ppid(p) > 0 :: w.ppid(p) in w.pids
  }

  /** `_pid_to_depth` and `_candidate_ppid2child_pid`. */
  datatype Table = Table(depth: map<int, int>, children: map<int, set<int>>)

  predicate InRange(w: World, e: int) {
    (if w.maxDepth < 0 then w.maxDepth else 0) <= e <= w.maxDepth
  }

  function KidsOf(t: Table, q: int): set<int> {
    if q in t.children then t.children[q] else {}
  }

  /** Recording `p` at depth `e`, and under its parent if it has one. */
  function Record(w: World, t: Table, p: int, e: int): Table {
    var q := w.ppid(p);
    Table(t.depth[p := e], if q > 0 then t.children[q := KidsOf(t, q) + {p}] else t.children)
  }

  predicate Bypasses(t: Table, p: int, e: int) {
    p in t.depth && e <= t.depth[p]
  }

  // ----- Termination ----------------------------------------------------------------------------

  /** The (pid, depth) pairs not covered by what is recorded: every recording covers one more. */
  ghost function Uncovered(w: World, t: Table): set<(int, int)> {
    set p, k | p in w.pids && (if w.maxDepth < 0 then w.maxDepth else 0) <= k <= w.maxDepth
        && !(p in t.depth && k <= t.depth[p]) :: (p, k)
  }

  lemma RecordCovers(w: World, t: Table, p: int, e: int)
    requires p in w.pids && InRange(w, e) && !Bypasses(t, p, e)
    ensures Uncovered(w, Record(w, t, p, e)) < Uncovered(w, t)
  {
    assert (p, e) in Uncovered(w, t) && (p, e) !in Uncovered(w, Record(w, t, p, e));
  }

  /** What a lookup extends to: the parent and the depth to look it up with, or nothing. */
  datatype Extension = Stop | Go(parent: int, left: int)

  function Extend(w: World, t: Table, p: int, e: int): Extension {
    var q := w.ppid(p);
    if q <= 0 then Stop
    else if |KidsOf(t, q)| >= 2 then Go(q, e)
    else if e > 0 then Go(q, e - 1)
    else Stop
  }

  /** `lookup_extend_parent`: the tables it leaves and the parents it returns. */
  ghost function Lookup(w: World, t: Table, p: int, e: int): (Table, seq<int>)
    requires Closed(w) && p in w.pids && InRange(w, e)
    decreases Uncovered(w, t)
  {
    if Bypasses(t, p, e) then (t, [])
    else
      var t1 := Record(w, t, p, e);
      match Extend(w, t1, p, e)
      case Stop => (t1, [])
      case Go(q, left) =>
        RecordCovers(w, t, p, e);
        var (t2, ns) := Lookup(w, t1, q, left);
        (t2, [q] + ns)
  }

  lemma LookupMemo(w: World, t: Table, p: int, e: int)
    requires Closed(w) && p in w.pids && InRange(w, e) && Bypasses(t, p, e)
    ensures Lookup(w, t, p, e) == (t, [])
  {
  }

  /** One step of a lookup that does not return at once. */
  lemma LookupStep(w: World, t: Table, p: int, e: int)
    requires Closed(w) && p in w.pids && InRange(w, e) && !Bypasses(t, p, e)
    ensures var t1 := Record(w, t, p, e);
            var on := Extend(w, t1, p, e);
            if on.Stop? then Lookup(w, t, p, e) == (t1, [])
            else
              && on.parent in w.pids && InRange(w, on.left) && Uncovered(w, t1) < Uncovered(w, t)
              && Lookup(w, t, p, e)
                  == (Lookup(w, t1, on.parent, on.left).0, [on.parent] + Lookup(w, t1, on.parent, on.left).1)
  {
    RecordCovers(w, t, p, e);
  }

  // ----- The invariant ------------------------------------------------------------------------------

  ghost function Recorded(w: World, t: Table, q: int): set<int> {
    set p | p in t.depth && w.ppid(p) == q
  }

  /** The child index is exactly the recorded pids grouped by positive parent. */
  ghost predicate Indexed(w: World, t: Table) {
    && (forall q :: q in t.children <==> q > 0 && Recorded(w, t, q) != {})
    && (forall q | q in t.children :: t.children[q] == Recorded(w, t, q))
  }

  /** A recorded pid with depth to spare has its parent recorded, at most one level less deep. */
  ghost predicate DepthOk(w: World, t: Table, p: int) {
    p in t.depth && t.depth[p] > 0 && w.ppid(p) > 0 ==>
      w.ppid(p) in t.depth && t.depth[w.ppid(p)] >= t.depth[p] - 1
  }

  /** A pid with two or more recorded children is recorded. */
  ghost predicate CommonOk(w: World, t: Table, q: int) {
    q > 0 && |Recorded(w, t, q)| >= 2 ==> q in t.depth
  }

  ghost predicate Sound(w: World, t: Table) {
    && Indexed(w, t)
    && (forall p :: DepthOk(w, t, p))
    && (forall q :: CommonOk(w, t, q))
  }

  ghost predicate Grows(t: Table, t': Table) {
    forall x | x in t.depth :: x in t'.depth && t'.depth[x] >= t.depth[x]
  }

  predicate Changed(t: Table, t': Table, x: int) {
    x in t.depth && x in t'.depth && t'.depth[x] != t.depth[x]
  }

  /** `ns` climbs from `p`: each entry is the positive parent of the one before. */
  predicate Climbs(w: World, p: int, ns: seq<int>)
    decreases |ns|
  {
    ns == [] || (ns[0] == w.ppid(p) > 0 && Climbs(w, ns[0], ns[1..]))
  }

  lemma RecordIndexed(w: World, t: Table, p: int, e: int)
    requires Indexed(w, t)
    ensures Indexed(w, Record(w, t, p, e))
    ensures forall q | q != w.ppid(p) :: Recorded(w, Record(w, t, p, e), q) == Recorded(w, t, q)
    ensures w.ppid(p) > 0 ==> KidsOf(Record(w, t, p, e), w.ppid(p)) == Recorded(w, Record(w, t, p, e), w.ppid(p))
  {
    var t1 := Record(w, t, p, e);
    forall q
      ensures Recorded(w, t1, q) == Recorded(w, t, q) + if q == w.ppid(p) then {p} else {}
    {
    }
  }

  /** Recorded depths only grow, the pid asked for is deep enough, and the answer climbs its ancestors. */
  lemma {:induction false} LookupGrows(w: World, t: Table, p: int, e: int)
    requires Closed(w) && p in w.pids && InRange(w, e)
    ensures var (t', ns) := Lookup(w, t, p, e);
            && Grows(t, t') && p in t'.depth && t'.depth[p] >= e
            && Climbs(w, p, ns) && forall q | q in ns :: q in t'.depth
    decreases Uncovered(w, t)
  {
    if Bypasses(t, p, e) {
    } else {
      var t1 := Record(w, t, p, e);
      match Extend(w, t1, p, e) {
        case Stop =>
        case Go(q, left) =>
          RecordCovers(w, t, p, e);
          LookupGrows(w, t1, q, left);
          var (t2, ns) := Lookup(w, t1, q, left);
          assert ([q] + ns)[1..] == ns;
      }
    }
  }

  /**
   The index stays exact and common parents get recorded.  In general position `p` itself may still
   lack its entry although it has two children: it is recorded now.
   */
  lemma {:induction false} LookupIndexes(w: World, t: Table, p: int, e: int)
    requires Closed(w) && p in w.pids && InRange(w, e)
    requires Indexed(w, t) && forall q | q != p :: CommonOk(w, t, q)
    ensures var t' := Lookup(w, t, p, e).0; Indexed(w, t') && forall q :: CommonOk(w, t', q)
    decreases Uncovered(w, t)
  {
    if Bypasses(t, p, e) {
    } else {
      var t1 := Record(w, t, p, e);
      RecordIndexed(w, t, p, e);
      forall r | r != w.ppid(p)
        ensures CommonOk(w, t1, r)
      {
        assert CommonOk(w, t, r) || r == p;
      }
      match Extend(w, t1, p, e) {
        case Stop =>
        case Go(q, left) =>
          RecordCovers(w, t, p, e);
          LookupIndexes(w, t1, q, left);
      }
    }
  }

  /** Whoever was in order stays so, and whoever changed is in order now. */
  lemma {:induction false} LookupDepths(w: World, t: Table, p: int, e: int, x: int)
    requires Closed(w) && p in w.pids && InRange(w, e) && Indexed(w, t)
    requires DepthOk(w, t, x) || Changed(t, Lookup(w, t, p, e).0, x)
    ensures DepthOk(w, Lookup(w, t, p, e).0, x)
    decreases Uncovered(w, t)
  {
    LookupGrows(w, t, p, e);
    if Bypasses(t, p, e) {
    } else {
      var t1 := Record(w, t, p, e);
      RecordIndexed(w, t, p, e);
      match Extend(w, t1, p, e) {
        case Stop =>
        case Go(q, left) =>
          RecordCovers(w, t, p, e);
          LookupGrows(w, t1, q, left);
          var t2 := Lookup(w, t1, q, left).0;
          if DepthOk(w, t1, x) || Changed(t1, t2, x) {
            LookupDepths(w, t1, q, left, x);
          }
      }
    }
  }

  /** Between lookups the tables stay sound, and the looked-up pid is recorded deep enough. */
  lemma LookupSound(w: World, t: Table, p: int, e: int)
    requires Closed(w) && p in w.pids && InRange(w, e) && Sound(w, t)
    ensures Sound(w, Lookup(w, t, p, e).0)
    ensures Grows(t, Lookup(w, t, p, e).0)
    ensures p in Lookup(w, t, p, e).0.depth && Lookup(w, t, p, e).0.depth[p] >= e
  {
    LookupGrows(w, t, p, e);
    LookupIndexes(w, t, p, e);
    forall x {
      LookupDepths(w, t, p, e, x);
    }
  }

  /** The fast bypass: asking again, no deeper, changes nothing and answers nothing. */
  lemma LookupMemoized(w: World, t: Table, p: int, e: int, e': int)
    requires Closed(w) && p in w.pids && InRange(w, e) && InRange(w, e') && e' <= e
    ensures var t' := Lookup(w, t, p, e).0; Lookup(w, t', p, e') == (t', [])
  {
    LookupGrows(w, t, p, e);
  }

  predicate Touched(t: Table, t': Table, x: int) {
    x in t'.depth && (x !in t.depth || t'.depth[x] != t.depth[x])
  }

  /** Nothing is recorded in silence: whoever a lookup records, other than the pid itself, is in its answer. */
  lemma {:induction false} LookupReports(w: World, t: Table, p: int, e: int, x: int)
    requires Closed(w) && p in w.pids && InRange(w, e)
    requires Touched(t, Lookup(w, t, p, e).0, x)
    ensures x == p || x in Lookup(w, t, p, e).1
    decreases Uncovered(w, t)
  {
    if Bypasses(t, p, e) || x == p {
    } else {
      var t1 := Record(w, t, p, e);
      match Extend(w, t1, p, e) {
        case Stop =>
        case Go(q, left) =>
          RecordCovers(w, t, p, e);
          LookupReports(w, t1, q, left, x);
      }
    }
  }

  /** A lookup at `e` records nobody deeper than `e`, and the pid itself at `e` or as deep as it was. */
  lemma {:induction false} LookupBounds(w: World, t: Table, p: int, e: int)
    requires Closed(w) && p in w.pids && InRange(w, e)
    ensures var t' := Lookup(w, t, p, e).0;
            && (forall x | Touched(t, t', x) :: t'.depth[x] <= e)
            && p in t'.depth && t'.depth[p] == if p in t.depth && t.depth[p] >= e then t.depth[p] else e
    decreases Uncovered(w, t)
  {
    LookupGrows(w, t, p, e);
    if Bypasses(t, p, e) {
    } else {
      var t1 := Record(w, t, p, e);
      match Extend(w, t1, p, e) {
        case Stop =>
        case Go(q, left) =>
          RecordCovers(w, t, p, e);
          LookupBounds(w, t1, q, left);
          var t2 := Lookup(w, t1, q, left).0;
          forall x | Touched(t, t2, x)
            ensures t2.depth[x] <= e
          {
            assert x == p || Touched(t1, t2, x);
          }
          assert Touched(t1, t2, p) || t2.depth[p] == e;
      }
    }
  }

  /** The depth of `q` after a lookup of it at `e`. */
  predicate DepthBecomes(t: Table, t': Table, q: int, e: int) {
    q in t'.depth && t'.depth[q] == if q in t.depth && t.depth[q] >= e then t.depth[q] else e
  }

  /**
   The parent of a pid that is not yet recorded as deep: if it has two or more recorded children, this
   one counted, it is answered first and looked up with the allowance unspent.
   */
  lemma CommonParentFollowed(w: World, t: Table, p: int, e: int)
    requires Closed(w) && p in w.pids && InRange(w, e) && Indexed(w, t)
    requires p !in t.depth || t.depth[p] < e
    requires w.ppid(p) > 0 && |Recorded(w, t, w.ppid(p)) + {p}| >= 2
    ensures var q, (t', ns) := w.ppid(p), Lookup(w, t, p, e);
            && ns != [] && ns[0] == q && q in t'.depth && t'.depth[q] >= e
            && DepthBecomes(t.(depth := t.depth[p := e]), t', q, e)
  {
    var t1 := Record(w, t, p, e);
    RecordIndexed(w, t, p, e);
    assert Recorded(w, t1, w.ppid(p)) == Recorded(w, t, w.ppid(p)) + {p};
    LookupStep(w, t, p, e);
    LookupBounds(w, t1, w.ppid(p), e);
  }

  /** Without a parent nobody is answered. */
  lemma NoParentNoAnswer(w: World, t: Table, p: int, e: int)
    requires Closed(w) && p in w.pids && InRange(w, e) && w.ppid(p) <= 0
    ensures Lookup(w, t, p, e).1 == []
  {
  }

  /**
   If the pid is its parent's only recorded child, the parent is answered exactly when some allowance is
   left, and then looked up with one level less.
   */
  lemma SingleParentFollowedIff(w: World, t: Table, p: int, e: int)
    requires Closed(w) && p in w.pids && InRange(w, e) && Indexed(w, t)
    requires p !in t.depth || t.depth[p] < e
    requires w.ppid(p) > 0 && |Recorded(w, t, w.ppid(p)) + {p}| == 1
    ensures Lookup(w, t, p, e).1 != [] <==> e > 0
    ensures e > 0 ==>
              && Lookup(w, t, p, e).1[0] == w.ppid(p)
              && DepthBecomes(t.(depth := t.depth[p := e]), Lookup(w, t, p, e).0, w.ppid(p), e - 1)
  {
    hide Lookup, Uncovered, Closed;
    LookupStep(w, t, p, e);
    var t1, q := Record(w, t, p, e), w.ppid(p);
    RecordIndexed(w, t, p, e);
    assert Recorded(w, t1, q) == Recorded(w, t, q) + {p};
    hide Indexed, Recorded;
    if e > 0 {
      LookupBounds(w, t1, q, e - 1);
    }
  }

  // ----- The descent before a lookup ------------------------------------------------------------------

  ghost function Only(s: set<int>): int
    requires |s| == 1
  {
    assert exists x :: x in s by {
      if forall x :: x !in s {
        assert false;
      }
    }
    var x :| x in s; x
  }

  lemma OnlyOne(s: set<int>, x: int)
    requires |s| == 1 && x in s
    ensures x == Only(s)
  {
    assert |s - {x}| == 0;
  }

  /** Each single-child link below the entity uses up one level of the allowance. */
  ghost function AllowanceLeft(t: Table, p: int, left: int): int
    decreases if left > 0 then left else 0
  {
    if left > 0 && p in t.children && |t.children[p]| == 1
    then AllowanceLeft(t, Only(t.children[p]), left - 1)
    else left
  }

  /** `xs` goes down from `p`, each entry having the next one as its only recorded child. */
  predicate Descends(t: Table, p: int, xs: seq<int>) {
    && xs != [] && xs[0] == p
    && forall i | 0 <= i < |xs| - 1 :: xs[i] in t.children && t.children[xs[i]] == {xs[i + 1]}
  }

  /** As far down as the allowance goes, or until an entry has no child or several. */
  predicate Descent(t: Table, p: int, left: int, xs: seq<int>) {
    && Descends(t, p, xs) && |xs| - 1 <= (if left > 0 then left else 0)
    && var last := xs[|xs| - 1];
       |xs| - 1 >= left || last !in t.children || |t.children[last]| != 1
  }

  /** What is left is the allowance less the links of the descent, whose length is determined ... */
  lemma {:induction false} AllowanceIs(t: Table, p: int, left: int, xs: seq<int>)
    requires Descent(t, p, left, xs)
    ensures AllowanceLeft(t, p, left) == left - (|xs| - 1)
    decreases |xs|
  {
    if |xs| > 1 {
      OnlyOne(t.children[p], xs[1]);
      assert Descends(t, xs[1], xs[1..]);
      AllowanceIs(t, xs[1], left - 1, xs[1..]);
    }
  }

  /** ... and there always is one. */
  lemma {:induction false} DescentExists(t: Table, p: int, left: int) returns (xs: seq<int>)
    ensures Descent(t, p, left, xs)
    decreases if left > 0 then left else 0
  {
    xs := [p];
    if left > 0 && p in t.children && |t.children[p]| == 1 {
      var child := Only(t.children[p]);
      OneElement(t.children[p]);
      var more := DescentExists(t, child, left - 1);
      xs := [p] + more;
    }
  }

  lemma OneElement(s: set<int>)
    requires |s| == 1
    ensures s == {Only(s)}
  {
    forall x | x in s
      ensures x == Only(s)
    {
      OnlyOne(s, x);
    }
  }

  lemma {:induction false} AllowanceInRange(w: World, t: Table, p: int, left: int)
    requires InRange(w, left)
    ensures InRange(w, AllowanceLeft(t, p, left))
    decreases if left > 0 then left else 0
  {
    if left > 0 && p in t.children && |t.children[p]| == 1 {
      AllowanceInRange(w, t, Only(t.children[p]), left - 1);
    }
  }

  /** `get_neighbors_with_edges` for a process. */
  ghost function Query(w: World, t: Table, p: int): (Table, seq<int>)
    requires Closed(w) && p in w.pids
  {
    AllowanceInRange(w, t, p, w.maxDepth);
    Lookup(w, t, p, AllowanceLeft(t, p, w.maxDepth))
  }

  /** A process is looked up with the configured depth less one per link down from it to single children. */
  lemma QueryMeans(w: World, t: Table, p: int, xs: seq<int>)
    requires Closed(w) && p in w.pids && Descent(t, p, w.maxDepth, xs)
    ensures InRange(w, w.maxDepth - (|xs| - 1))
    ensures Query(w, t, p) == Lookup(w, t, p, w.maxDepth - (|xs| - 1))
  {
    AllowanceInRange(w, t, p, w.maxDepth);
    AllowanceIs(t, p, w.maxDepth, xs);
  }

  ghost function After(w: World, t: Table, queries: seq<int>): Table
    requires Closed(w) && forall p | p in queries :: p in w.pids
  {
    if queries == [] then t else Query(w, After(w, t, queries[..|queries| - 1]), queries[|queries| - 1]).0
  }

  /** Any sequence of queries, from the cleared tables: every call ends and leaves them sound. */
  lemma {:induction false} QueriesSound(w: World, queries: seq<int>)
    requires Closed(w) && forall p | p in queries :: p in w.pids
    ensures Sound(w, After(w, Table(map[], map[]), queries))
    ensures forall p | p in queries :: p in After(w, Table(map[], map[]), queries).depth
  {
    var t0 := Table(map[], map[]);
    if queries == [] {
      assert forall q :: Recorded(w, t0, q) == {};
    } else {
      var init, p := queries[..|queries| - 1], queries[|queries| - 1];
      assert queries == init + [p];
      QueriesSound(w, init);
      var t := After(w, t0, init);
      AllowanceInRange(w, t, p, w.maxDepth);
      LookupSound(w, t, p, AllowanceLeft(t, p, w.maxDepth));
    }
  }

  /** Every parent reported so far. */
  ghost function Answers(w: World, queries: seq<int>): seq<int>
    requires Closed(w) && forall p | p in queries :: p in w.pids
  {
    if queries == [] then []
    else
      var init := queries[..|queries| - 1];
      Answers(w, init) + Query(w, After(w, Table(map[], map[]), init), queries[|queries| - 1]).1
  }

  lemma {:induction false} RecordedAreReported(w: World, queries: seq<int>, x: int)
    requires Closed(w) && forall p | p in queries :: p in w.pids
    requires x in After(w, Table(map[], map[]), queries).depth
    ensures x in queries || x in Answers(w, queries)
  {
    if queries == [] {
    } else {
      var init, p := queries[..|queries| - 1], queries[|queries| - 1];
      assert queries == init + [p];
      var t := After(w, Table(map[], map[]), init);
      if x in t.depth {
        RecordedAreReported(w, init, x);
      } else {
        AllowanceInRange(w, t, p, w.maxDepth);
        LookupReports(w, t, p, AllowanceLeft(t, p, w.maxDepth), x);
      }
    }
  }

  /** The collector's purpose: a parent of two or more recorded processes was asked about or has been reported. */
  lemma CommonParentsReported(w: World, queries: seq<int>, q: int)
    requires Closed(w) && forall p | p in queries :: p in w.pids
    requires q > 0 && |Recorded(w, After(w, Table(map[], map[]), queries), q)| >= 2
    ensures q in queries || q in Answers(w, queries)
  {
    QueriesSound(w, queries);
    assert CommonOk(w, After(w, Table(map[], map[]), queries), q);
    RecordedAreReported(w, queries, q);
  }

  // ----- The collector -----------------------------------------------------------------------------------

  class CommonProcessParentCollector {
    const ppid: int -> int
    const singleNodeParentDepth: int
    ghost const pids: set<int>
    var pidToDepth: map<int, int>
    var candidates: map<int, set<int>>

    constructor (ppid: int -> int, singleNodeParentDepth: int, ghost pids: set<int>)
      ensures this.ppid == ppid && this.singleNodeParentDepth == singleNodeParentDepth && this.pids == pids
      ensures View() == Table(map[], map[])
    {
      this.ppid, this.singleNodeParentDepth, this.pids := ppid, singleNodeParentDepth, pids;
      pidToDepth, candidates := map[], map[];
    }

    ghost function Env(): World {
      World(ppid, pids, singleNodeParentDepth)
    }

    ghost function View(): Table
      reads this
    {
      Table(pidToDepth, candidates)
    }

    method Clear()
      modifies this
      ensures View() == Table(map[], map[])
    {
      pidToDepth, candidates := map[], map[];
    }

    method LookupExtendParent(pid: int, left: int) returns (neighbors: seq<int>)
      requires Closed(Env()) && pid in pids && InRange(Env(), left)
      modifies this
      ensures (View(), neighbors) == Lookup(Env(), old(View()), pid, left)
      decreases Uncovered(Env(), View())
    {
      hide Uncovered, Lookup, Closed, InRange;
      if !Bypasses(View(), pid, left) {
        LookupStep(Env(), View(), pid, left);
      }
      if pid !in pidToDepth {
        pidToDepth := pidToDepth[pid := left];
      } else if left > pidToDepth[pid] {
        pidToDepth := pidToDepth[pid := left];
      } else {
        LookupMemo(Env(), View(), pid, left);
        return [];
      }
      neighbors := [];
      var parent := ppid(pid);
      if parent > 0 {
        candidates := candidates[parent := (if parent in candidates then candidates[parent] else {}) + {pid}];
        if |candidates[parent]| >= 2 {
          var more := LookupExtendParent(parent, left);
          neighbors := [parent] + more;
        } else if left > 0 {
          var more := LookupExtendParent(parent, left - 1);
          neighbors := [parent] + more;
        }
      }
    }

    method GetNeighborsWithEdges(pid: int) returns (neighbors: seq<int>)
      requires Closed(Env()) && pid in pids
      modifies this
      ensures (View(), neighbors) == Query(Env(), old(View()), pid)
    {
      var left, at := singleNodeParentDepth, pid;
      while left > 0 && at in candidates && |candidates[at]| == 1
        invariant View() == old(View())
        invariant AllowanceLeft(View(), at, left) == AllowanceLeft(View(), pid, singleNodeParentDepth)
        decreases left
      {
        var child :| child in candidates[at];
        OnlyOne(candidates[at], child);
        left, at := left - 1, child;
      }
      AllowanceInRange(Env(), View(), pid, singleNodeParentDepth);
      neighbors := LookupExtendParent(pid, left);
    }
  }
}
