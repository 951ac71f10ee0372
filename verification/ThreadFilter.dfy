/** Which threads of a process get their NUMA neighbours looked up: the share thresholds. */
module ThreadFilter {

  /** What is read of one thread; a counter the kernel did not report stays at -1. */
  datatype ProcStatus = ProcStatus(
    voluntarySwitches: int,
    involuntarySwitches: int,
    numaRuntimes: seq<real>
  )

  datatype Thread = Thread(tid: int, status: ProcStatus)

  /** The share of the total that a thread must have: of the context switches, and of the CPU time. */
  datatype Thresholds = Thresholds(switches: real, cpu: real)

  type Measure = Thread -> real

  function Sum(xs: seq<real>): real {
    if xs == [] then 0.0 else Sum(xs[..|xs| - 1]) + xs[|xs| - 1]
  }

  function Switches(t: Thread): real {
    (t.status.voluntarySwitches + t.status.involuntarySwitches) as real
  }

  function Involuntary(t: Thread): real {
    t.status.involuntarySwitches as real
  }

  function Runtime(t: Thread): real {
    Sum(t.status.numaRuntimes)
  }

  function Total(m: Measure, ts: seq<Thread>): real {
    if ts == [] then 0.0 else Total(m, ts[..|ts| - 1]) + m(ts[|ts| - 1])
  }

  /** The threads that pass, in the order they came. */
  function Where(test: Thread -> bool, ts: seq<Thread>): (kept: seq<Thread>)
    ensures |kept| <= |ts|
  {
    if ts == [] then []
    else Where(test, ts[..|ts| - 1]) + if test(ts[|ts| - 1]) then [ts[|ts| - 1]] else []
  }

  /** The test against the totals of the threads `ts`: any of the three criteria is enough. */
  predicate Passes(limits: Thresholds, ts: seq<Thread>, t: Thread) {
    || Switches(t) >= limits.switches * Total(Switches, ts)
    || Involuntary(t) >= limits.switches * Total(Involuntary, ts)
    || Runtime(t) > Total(Runtime, ts) * limits.cpu
  }

  function FilterByThresh(limits: Thresholds, ts: seq<Thread>): (kept: seq<Thread>) {
    Where(t => Passes(limits, ts, t), ts)
  }

  /** The thread's status file was there; if it is gone, both counters stay at -1. */
  predicate WasRead(t: Thread) {
    t.status.voluntarySwitches >= 0 && t.status.involuntarySwitches >= 0
  }

  predicate WasGone(t: Thread) {
    t.status.voluntarySwitches == -1 && t.status.involuntarySwitches == -1
  }

  /** Every counter was reported. */
  ghost predicate Read(ts: seq<Thread>) {
    forall t | t in ts :: WasRead(t) && HasRun(t)
  }

  /** Run times come from the scheduler table, whether the status was read or not. */
  ghost predicate HasRun(t: Thread) {
    forall i | 0 <= i < |t.status.numaRuntimes| :: t.status.numaRuntimes[i] >= 0.0
  }

  ghost predicate NonNegative(m: Measure, ts: seq<Thread>) {
    forall t | t in ts :: m(t) >= 0.0
  }

  lemma {:induction false} SumNonNegative(xs: seq<real>)
    requires forall i | 0 <= i < |xs| :: xs[i] >= 0.0
    ensures Sum(xs) >= 0.0
  {
    if xs == [] {
    } else {
      SumNonNegative(xs[..|xs| - 1]);
    }
  }

  lemma RunTimes(ts: seq<Thread>)
    requires forall t | t in ts :: HasRun(t)
    ensures NonNegative(Runtime, ts)
  {
    forall t | t in ts
      ensures Runtime(t) >= 0.0
    {
      SumNonNegative(t.status.numaRuntimes);
    }
  }

  lemma ReadNonNegative(ts: seq<Thread>)
    requires Read(ts)
    ensures NonNegative(Switches, ts) && NonNegative(Involuntary, ts) && NonNegative(Runtime, ts)
  {
    RunTimes(ts);
  }

  lemma {:induction false} WhereMembers(test: Thread -> bool, ts: seq<Thread>, t: Thread)
    ensures t in Where(test, ts) <==> t in ts && test(t)
  {
    if ts == [] {
    } else {
      WhereMembers(test, ts[..|ts| - 1], t);
      assert ts == ts[..|ts| - 1] + [ts[|ts| - 1]];
    }
  }

  /** Each sum is over the list, and one thread counts with what was read of it. */
  lemma {:induction false} TotalSplits(m: Measure, a: seq<Thread>, b: seq<Thread>)
    ensures Total(m, a + b) == Total(m, a) + Total(m, b)
  {
    if b == [] {
      assert a + b == a;
    } else {
      TotalSplits(m, a, b[..|b| - 1]);
      assert (a + b)[..|a + b| - 1] == a + b[..|b| - 1];
    }
  }

  lemma TotalsOfOne(t: Thread)
    ensures Total(Switches, [t]) == (t.status.voluntarySwitches + t.status.involuntarySwitches) as real
    ensures Total(Involuntary, [t]) == t.status.involuntarySwitches as real
    ensures Total(Runtime, [t]) == Sum(t.status.numaRuntimes)
  {
    assert [t][..0] == [];
    assert forall m: Measure :: Total(m, []) == 0.0;
  }

  lemma {:induction false} SumSplits(xs: seq<real>, ys: seq<real>)
    ensures Sum(xs + ys) == Sum(xs) + Sum(ys)
  {
    if ys == [] {
      assert xs + ys == xs;
    } else {
      SumSplits(xs, ys[..|ys| - 1]);
      assert (xs + ys)[..|xs + ys| - 1] == xs + ys[..|ys| - 1];
    }
  }

  lemma SumOne(x: real)
    ensures Sum([x]) == x
  {
    assert [x][..0] == [];
    assert Sum([]) == 0.0;
  }

  /**
   A thread is kept if its switches or its involuntary ones reach the share of their total, or its run
   time exceeds the share of the total; those kept stay in order.
   */
  lemma KeptIff(limits: Thresholds, ts: seq<Thread>, t: Thread)
    ensures var s := t.status;
            t in FilterByThresh(limits, ts) <==>
            && t in ts
            && (|| (s.voluntarySwitches + s.involuntarySwitches) as real >= limits.switches * Total(Switches, ts)
                || s.involuntarySwitches as real >= limits.switches * Total(Involuntary, ts)
                || Sum(s.numaRuntimes) > limits.cpu * Total(Runtime, ts))
  {
    hide Total, Sum, Where;
    WhereMembers(x => Passes(limits, ts, x), ts, t);
  }

  lemma {:induction false} WhereSplits(test: Thread -> bool, a: seq<Thread>, b: seq<Thread>)
    ensures Where(test, a + b) == Where(test, a) + Where(test, b)
  {
    if b == [] {
      assert a + b == a;
    } else {
      WhereSplits(test, a, b[..|b| - 1]);
      assert (a + b)[..|a + b| - 1] == a + b[..|b| - 1];
    }
  }

  lemma WhereOne(test: Thread -> bool, t: Thread)
    ensures Where(test, [t]) == if test(t) then [t] else []
  {
    assert [t][..0] == [];
    assert Where(test, []) == [];
  }

  // ----- At most so many ---------------------------------------------------------------------------------

  function Times(n: nat, bar: real): real {
    n as real * bar
  }

  lemma OneMore(n: nat, bar: real)
    ensures Times(0, bar) == 0.0 && Times(n + 1, bar) == Times(n, bar) + bar
  {
  }

  /** Threads with at least `bar` each hold that much of the total between them. */
  lemma {:induction false} HeavyShare(m: Measure, test: Thread -> bool, bar: real, ts: seq<Thread>)
    requires NonNegative(m, ts) && forall t | t in ts && test(t) :: m(t) >= bar
    ensures Times(|Where(test, ts)|, bar) <= Total(m, ts)
  {
    hide Times;
    OneMore(0, bar);
    if ts == [] {
    } else {
      assert ts[|ts| - 1] in ts;
      HeavyShare(m, test, bar, ts[..|ts| - 1]);
      OneMore(|Where(test, ts[..|ts| - 1])|, bar);
    }
  }

  lemma {:induction false} WhereEither(a: Thread -> bool, b: Thread -> bool, either: Thread -> bool, ts: seq<Thread>)
    requires forall t | t in ts :: either(t) ==> a(t) || b(t)
    ensures |Where(either, ts)| <= |Where(a, ts)| + |Where(b, ts)|
  {
    if ts == [] {
    } else {
      assert ts[|ts| - 1] in ts;
      WhereEither(a, b, either, ts[..|ts| - 1]);
    }
  }

  lemma Cancel(x: real, total: real)
    requires total > 0.0 && x * total <= total
    ensures x <= 1.0
  {
  }

  lemma Reciprocal(n: real, share: real)
    requires share > 0.0 && n * share <= 1.0
    ensures n <= 1.0 / share
  {
    var inverse := 1.0 / share;
    assert inverse * share == 1.0;
    assert (inverse - n) * share >= 0.0;
  }

  lemma AtMost(n: real, share: real, total: real, bar: real)
    requires total > 0.0 && share > 0.0 && bar == share * total && n * bar <= total
    ensures n <= 1.0 / share
  {
    var x := n * share;
    assert n * bar == x * total;
    Cancel(x, total);
    Reciprocal(n, share);
  }

  /** No more than `1 / share` threads hold that share of a positive total. */
  lemma ShareHolders(m: Measure, share: real, test: Thread -> bool, ts: seq<Thread>)
    requires NonNegative(m, ts) && share > 0.0 && Total(m, ts) > 0.0
    requires forall t | t in ts && test(t) :: m(t) >= share * Total(m, ts)
    ensures |Where(test, ts)| as real <= 1.0 / share
  {
    var bar := share * Total(m, ts);
    HeavyShare(m, test, bar, ts);
    AtMost(|Where(test, ts)| as real, share, Total(m, ts), bar);
  }

  lemma {:induction false} TotalNonNegative(m: Measure, ts: seq<Thread>)
    requires NonNegative(m, ts)
    ensures Total(m, ts) >= 0.0
    ensures forall t | t in ts :: m(t) <= Total(m, ts)
  {
    if ts == [] {
    } else {
      TotalNonNegative(m, ts[..|ts| - 1]);
      assert ts == ts[..|ts| - 1] + [ts[|ts| - 1]];
    }
  }

  lemma {:induction false} TotalBelow(m: Measure, m': Measure, ts: seq<Thread>)
    requires forall t | t in ts :: m(t) <= m'(t)
    ensures Total(m, ts) <= Total(m', ts)
  {
    if ts == [] {
    } else {
      assert ts[|ts| - 1] in ts;
      TotalBelow(m, m', ts[..|ts| - 1]);
    }
  }

  lemma {:induction false} WhereAll(test: Thread -> bool, ts: seq<Thread>)
    requires forall t | t in ts :: test(t)
    ensures Where(test, ts) == ts
  {
    if ts == [] {
    } else {
      assert ts[|ts| - 1] in ts;
      WhereAll(test, ts[..|ts| - 1]);
      assert ts == ts[..|ts| - 1] + [ts[|ts| - 1]];
    }
  }

  lemma {:induction false} WhereNone(test: Thread -> bool, ts: seq<Thread>)
    requires forall t | t in ts :: !test(t)
    ensures Where(test, ts) == []
  {
    if ts == [] {
    } else {
      assert ts[|ts| - 1] in ts;
      WhereNone(test, ts[..|ts| - 1]);
    }
  }

  /** With some involuntary switch counted, at most `2 / p + 1 / q` threads are kept. */
  lemma KeepsFew(limits: Thresholds, ts: seq<Thread>)
    requires Read(ts) && limits.switches > 0.0 && limits.cpu > 0.0
    requires Total(Involuntary, ts) > 0.0
    ensures |FilterByThresh(limits, ts)| as real <= 2.0 / limits.switches + 1.0 / limits.cpu
  {
    hide Switches, Involuntary, Runtime, Total, Where;
    ReadNonNegative(ts);
    InvoluntaryAreSwitches(ts);
    var often := (t: Thread) => Switches(t) >= limits.switches * Total(Switches, ts);
    var preempted := (t: Thread) => Involuntary(t) >= limits.switches * Total(Involuntary, ts);
    var busy := (t: Thread) => Runtime(t) > Total(Runtime, ts) * limits.cpu;
    var switching := (t: Thread) => often(t) || preempted(t);
    ShareHolders(Switches, limits.switches, often, ts);
    ShareHolders(Involuntary, limits.switches, preempted, ts);
    BusyAreFew(limits.cpu, busy, ts);
    WhereEither(often, preempted, switching, ts);
    WhereEither(switching, busy, t => Passes(limits, ts, t), ts);
    assert 2.0 / limits.switches == 1.0 / limits.switches + 1.0 / limits.switches;
  }

  lemma InvoluntaryAreSwitches(ts: seq<Thread>)
    requires Read(ts)
    ensures Total(Involuntary, ts) <= Total(Switches, ts)
  {
    TotalBelow(Involuntary, Switches, ts);
  }

  /** The CPU criterion is strict, so it needs no positive total. */
  lemma BusyAreFew(share: real, busy: Thread -> bool, ts: seq<Thread>)
    requires NonNegative(Runtime, ts) && share > 0.0
    requires forall t | t in ts && busy(t) :: Runtime(t) > Total(Runtime, ts) * share
    ensures |Where(busy, ts)| as real <= 1.0 / share
  {
    hide Runtime;
    TotalNonNegative(Runtime, ts);
    if Total(Runtime, ts) > 0.0 {
      ShareHolders(Runtime, share, busy, ts);
    } else {
      WhereNone(busy, ts);
      assert 1.0 / share > 0.0;
    }
  }

  /**
   With no involuntary switch counted in the total, the second criterion is met by every thread whose
   status was read; if that is everyone, the filter keeps the list as it is.
   */
  lemma KeepsAll(limits: Thresholds, ts: seq<Thread>)
    requires limits.switches * Total(Involuntary, ts) <= 0.0
    ensures forall t | t in ts && WasRead(t) :: t in FilterByThresh(limits, ts)
    ensures (forall t | t in ts :: WasRead(t)) ==> FilterByThresh(limits, ts) == ts
  {
    hide Total, Where;
    var test := (t: Thread) => Passes(limits, ts, t);
    forall t | t in ts && WasRead(t)
      ensures t in Where(test, ts) && test(t)
    {
      WhereMembers(test, ts, t);
    }
    if forall t | t in ts :: WasRead(t) {
      WhereAll(test, ts);
    }
  }

  /** The bound holds if and only if some involuntary switch is counted, or the threads are few anyway. */
  lemma BoundIff(limits: Thresholds, ts: seq<Thread>)
    requires Read(ts) && limits.switches > 0.0 && limits.cpu > 0.0
    ensures |FilterByThresh(limits, ts)| as real <= 2.0 / limits.switches + 1.0 / limits.cpu <==>
            Total(Involuntary, ts) > 0.0 || |ts| as real <= 2.0 / limits.switches + 1.0 / limits.cpu
  {
    ReadNonNegative(ts);
    TotalNonNegative(Involuntary, ts);
    if Total(Involuntary, ts) > 0.0 {
      KeepsFew(limits, ts);
    } else {
      KeepsAll(limits, ts);
    }
  }

  // ----- At least one ------------------------------------------------------------------------------------

  /** The average does not exceed a maximum. */
  lemma {:induction false} TotalBounded(m: Measure, top: real, ts: seq<Thread>)
    requires forall t | t in ts :: m(t) <= top
    ensures Total(m, ts) <= |ts| as real * top
  {
    if ts == [] {
    } else {
      assert ts[|ts| - 1] in ts;
      TotalBounded(m, top, ts[..|ts| - 1]);
    }
  }

  /**
   Among at most `1 / p` threads, each one that switches most is kept, and each one preempted most;
   only its own counters need to have been reported.
   */
  lemma KeepsTheTop(limits: Thresholds, ts: seq<Thread>, top: Thread)
    requires limits.switches >= 0.0 && |ts| as real * limits.switches <= 1.0 && top in ts
    requires (Switches(top) >= 0.0 && forall t | t in ts :: Switches(t) <= Switches(top))
             || (Involuntary(top) >= 0.0 && forall t | t in ts :: Involuntary(t) <= Involuntary(top))
    ensures top in FilterByThresh(limits, ts)
  {
    hide Switches, Involuntary, Runtime, Total, Where;
    if Switches(top) >= 0.0 && forall t | t in ts :: Switches(t) <= Switches(top) {
      TotalBounded(Switches, Switches(top), ts);
      ShareOfTop(|ts| as real, limits.switches, Total(Switches, ts), Switches(top));
    } else {
      TotalBounded(Involuntary, Involuntary(top), ts);
      ShareOfTop(|ts| as real, limits.switches, Total(Involuntary, ts), Involuntary(top));
    }
    WhereMembers(t => Passes(limits, ts, t), ts, top);
  }

  lemma ShareOfTop(n: real, share: real, total: real, top: real)
    requires total <= n * top && share >= 0.0 && n * share <= 1.0 && top >= 0.0
    ensures share * total <= top
  {
    Lower(share, total, n * top);
    assert share * (n * top) == top * (n * share);
    Lower(top, n * share, 1.0);
  }

  lemma {:induction false} SomeTop(m: Measure, ts: seq<Thread>) returns (top: Thread)
    requires ts != []
    ensures top in ts && forall t | t in ts :: m(t) <= m(top)
  {
    var last := ts[|ts| - 1];
    top := last;
    if |ts| == 1 {
    } else {
      var best := SomeTop(m, ts[..|ts| - 1]);
      top := if m(best) >= m(last) then best else last;
    }
    assert ts == ts[..|ts| - 1] + [last];
  }

  /** Among at most `1 / p` threads, one is kept as soon as the counters of any of them were reported. */
  lemma KeepsOne(limits: Thresholds, ts: seq<Thread>, some: Thread)
    requires limits.switches >= 0.0 && |ts| as real * limits.switches <= 1.0 && some in ts && WasRead(some)
    ensures FilterByThresh(limits, ts) != []
  {
    var top := SomeTop(Switches, ts);
    assert Switches(some) <= Switches(top);
    KeepsTheTop(limits, ts, top);
  }

  // ----- Once is enough ----------------------------------------------------------------------------------

  /** Leaving out threads that measure at least zero does not raise the total. */
  lemma {:induction false} WhereLowersTotal(m: Measure, test: Thread -> bool, ts: seq<Thread>)
    requires forall t | t in ts && !test(t) :: m(t) >= 0.0
    ensures Total(m, Where(test, ts)) <= Total(m, ts)
  {
    if ts == [] {
    } else {
      assert ts[|ts| - 1] in ts;
      var before := Where(test, ts[..|ts| - 1]);
      WhereLowersTotal(m, test, ts[..|ts| - 1]);
      assert (before + [ts[|ts| - 1]])[..|before|] == before && before + [] == before;
    }
  }

  /**
   Filtering the kept threads again keeps them all, as long as every thread that was left out had its
   status read: then the totals do not rise.
   */
  lemma FilterTwice(limits: Thresholds, ts: seq<Thread>)
    requires limits.switches >= 0.0 && limits.cpu >= 0.0 && forall t | t in ts :: HasRun(t)
    requires forall t | t in ts :: WasRead(t) || t in FilterByThresh(limits, ts)
    ensures FilterByThresh(limits, FilterByThresh(limits, ts)) == FilterByThresh(limits, ts)
  {
    var test := (t: Thread) => Passes(limits, ts, t);
    var kept := Where(test, ts);
    assert kept == FilterByThresh(limits, ts);
    DroppedAreRead(limits, ts);
    hide Switches, Involuntary, Runtime, Total, Where;
    WhereLowersTotal(Switches, test, ts);
    WhereLowersTotal(Involuntary, test, ts);
    WhereLowersTotal(Runtime, test, ts);
    forall t | t in kept
      ensures Passes(limits, kept, t)
    {
      WhereMembers(test, ts, t);
      PassesBelow(limits, ts, kept, t);
    }
    hide Passes;
    WhereAll(t => Passes(limits, kept, t), kept);
  }

  lemma PassesBelow(limits: Thresholds, ts: seq<Thread>, kept: seq<Thread>, t: Thread)
    requires limits.switches >= 0.0 && limits.cpu >= 0.0 && Passes(limits, ts, t)
    requires Total(Switches, kept) <= Total(Switches, ts) && Total(Involuntary, kept) <= Total(Involuntary, ts)
    requires Total(Runtime, kept) <= Total(Runtime, ts)
    ensures Passes(limits, kept, t)
  {
    hide Switches, Involuntary, Runtime, Total;
    Lower(limits.switches, Total(Switches, kept), Total(Switches, ts));
    Lower(limits.switches, Total(Involuntary, kept), Total(Involuntary, ts));
    Lower(limits.cpu, Total(Runtime, kept), Total(Runtime, ts));
  }

  lemma DroppedAreRead(limits: Thresholds, ts: seq<Thread>)
    requires forall t | t in ts :: HasRun(t)
    requires forall t | t in ts :: WasRead(t) || t in FilterByThresh(limits, ts)
    ensures forall t | t in ts && !Passes(limits, ts, t) ::
              Switches(t) >= 0.0 && Involuntary(t) >= 0.0 && Runtime(t) >= 0.0
  {
    hide Runtime, Total, Where;
    RunTimes(ts);
    forall t | t in ts && !Passes(limits, ts, t)
      ensures WasRead(t)
    {
      WhereMembers(u => Passes(limits, ts, u), ts, t);
    }
  }

  /** The placeholders of threads left out lowered the totals: without them a kept thread fails. */
  lemma FilterTwiceBreaks()
    ensures var limits := Thresholds(0.5, 0.5);
            var a, b, gone :=
              Thread(1, ProcStatus(5, 5, [])), Thread(2, ProcStatus(8, 0, [])), Thread(3, ProcStatus(-1, -1, []));
            && FilterByThresh(limits, [a, b, gone, gone, gone]) == [a, b]
            && FilterByThresh(limits, [a, b]) == [a]
  {
    var limits := Thresholds(0.5, 0.5);
    var a, b, gone :=
      Thread(1, ProcStatus(5, 5, [])), Thread(2, ProcStatus(8, 0, [])), Thread(3, ProcStatus(-1, -1, []));
    var ts := [a, b, gone, gone, gone];
    TotalFive(Switches, a, b, gone);
    TotalFive(Involuntary, a, b, gone);
    TotalFive(Runtime, a, b, gone);
    WhereFive(t => Passes(limits, ts, t), a, b, gone);
    WhereTwo(t => Passes(limits, [a, b], t), a, b);
  }

  lemma OneLast(m: Measure, test: Thread -> bool, ts: seq<Thread>, t: Thread)
    ensures Total(m, ts + [t]) == Total(m, ts) + m(t)
    ensures Where(test, ts + [t]) == Where(test, ts) + if test(t) then [t] else []
  {
    assert (ts + [t])[..|ts|] == ts;
  }

  lemma TotalFive(m: Measure, a: Thread, b: Thread, c: Thread)
    ensures Total(m, [a, b]) == m(a) + m(b)
    ensures Total(m, [a, b, c, c, c]) == m(a) + m(b) + 3.0 * m(c)
  {
    OneLast(m, _ => true, [], a);
    OneLast(m, _ => true, [a], b);
    OneLast(m, _ => true, [a, b], c);
    OneLast(m, _ => true, [a, b, c], c);
    OneLast(m, _ => true, [a, b, c, c], c);
    assert [] + [a] == [a] && [a] + [b] == [a, b] && [a, b] + [c] == [a, b, c];
    assert [a, b, c] + [c] == [a, b, c, c] && [a, b, c, c] + [c] == [a, b, c, c, c];
  }

  lemma WhereTwo(test: Thread -> bool, a: Thread, b: Thread)
    ensures Where(test, [a, b]) == (if test(a) then [a] else []) + if test(b) then [b] else []
  {
    OneLast(Switches, test, [], a);
    OneLast(Switches, test, [a], b);
    assert [] + [a] == [a] && [a] + [b] == [a, b];
  }

  lemma WhereFive(test: Thread -> bool, a: Thread, b: Thread, c: Thread)
    requires !test(c)
    ensures Where(test, [a, b, c, c, c]) == (if test(a) then [a] else []) + if test(b) then [b] else []
  {
    WhereTwo(test, a, b);
    OneLast(Switches, test, [a, b], c);
    OneLast(Switches, test, [a, b, c], c);
    OneLast(Switches, test, [a, b, c, c], c);
    assert [a, b] + [c] == [a, b, c] && [a, b, c] + [c] == [a, b, c, c] && [a, b, c, c] + [c] == [a, b, c, c, c];
    var kept := Where(test, [a, b]);
    assert kept + [] == kept;
  }

  lemma Lower(share: real, low: real, high: real)
    requires share >= 0.0 && low <= high
    ensures share * low <= share * high
  {
  }

  // ----- Counters that were not reported -------------------------------------------------------------------

  lemma {:induction false} GoneTotals(ts: seq<Thread>)
    requires forall t | t in ts :: WasGone(t)
    ensures Total(Switches, ts) == -2.0 * |ts| as real && Total(Involuntary, ts) == -1.0 * |ts| as real
  {
    if ts == [] {
    } else {
      assert ts[|ts| - 1] in ts;
      GoneTotals(ts[..|ts| - 1]);
    }
  }

  /** The CPU criterion alone. */
  predicate IsBusy(limits: Thresholds, ts: seq<Thread>, t: Thread) {
    Runtime(t) > Total(Runtime, ts) * limits.cpu
  }

  /**
   With no counter reported the two switch criteria are turned round by the placeholder: all threads
   meet them if there are many, none if there are few, and then the run times decide alone.
   */
  lemma UnreadKeptIff(limits: Thresholds, ts: seq<Thread>, t: Thread)
    requires forall u | u in ts :: WasGone(u)
    ensures t in FilterByThresh(limits, ts) <==>
            t in ts && (|ts| as real * limits.switches >= 1.0 || IsBusy(limits, ts, t))
  {
    WhereMembers(u => Passes(limits, ts, u), ts, t);
    if t in ts {
      GoneSwitches(limits, ts, t);
    }
  }

  lemma GoneSwitches(limits: Thresholds, ts: seq<Thread>, t: Thread)
    requires t in ts && forall u | u in ts :: WasGone(u)
    ensures Switches(t) >= limits.switches * Total(Switches, ts) <==> |ts| as real * limits.switches >= 1.0
    ensures Involuntary(t) >= limits.switches * Total(Involuntary, ts) <==> |ts| as real * limits.switches >= 1.0
  {
    hide Total;
    GoneTotals(ts);
    assert Switches(t) == -2.0 && Involuntary(t) == -1.0;
    GoneShare(|ts| as real, limits.switches);
  }

  lemma GoneShare(n: real, share: real)
    ensures -2.0 >= share * (-2.0 * n) <==> n * share >= 1.0
    ensures -1.0 >= share * (-1.0 * n) <==> n * share >= 1.0
  {
    var x := n * share;
    assert share * (-2.0 * n) == -2.0 * x && share * (-1.0 * n) == -1.0 * x;
  }

  /**
   Among at most `1 / p` threads, each with its status read or gone, some thread is kept if and only
   if some status was read, or some run time alone passes, or there are exactly `1 / p` threads.
   */
  lemma KeepsSomeIff(limits: Thresholds, ts: seq<Thread>)
    requires limits.switches >= 0.0 && |ts| as real * limits.switches <= 1.0
    requires forall t | t in ts :: WasRead(t) || WasGone(t)
    ensures FilterByThresh(limits, ts) != [] <==>
            || (exists t | t in ts :: WasRead(t))
            || (exists t | t in ts :: IsBusy(limits, ts, t))
            || |ts| as real * limits.switches == 1.0
  {
    hide FilterByThresh, IsBusy;
    if t :| t in ts && WasRead(t) {
      KeepsOne(limits, ts, t);
    } else {
      var kept := FilterByThresh(limits, ts);
      forall t
        ensures t in kept <==> t in ts && (|ts| as real * limits.switches >= 1.0 || IsBusy(limits, ts, t))
      {
        UnreadKeptIff(limits, ts, t);
      }
      assert kept != [] ==> kept[0] in kept;
      assert |ts| as real * limits.switches == 1.0 ==> ts != [] && ts[0] in ts;
    }
  }

  /** `n` threads are fewer than `1 / share`. */
  predicate Fewer(n: real, share: real) {
    n * share < 1.0
  }

  /** Among fewer than `1 / q` threads, some run time alone passes if and only if any was recorded. */
  lemma BusyIff(limits: Thresholds, ts: seq<Thread>)
    requires limits.cpu >= 0.0 && Fewer(|ts| as real, limits.cpu) && forall t | t in ts :: HasRun(t)
    ensures (exists t | t in ts :: IsBusy(limits, ts, t)) <==> exists t | t in ts :: Runtime(t) > 0.0
  {
    hide Runtime, Total, IsBusy, Fewer;
    RunTimes(ts);
    TotalNonNegative(Runtime, ts);
    if t :| t in ts && IsBusy(limits, ts, t) {
      BusyHasRun(limits, ts, t);
    }
    if t :| t in ts && Runtime(t) > 0.0 {
      var top := SomeTop(Runtime, ts);
      TopIsBusy(limits, ts, t, top);
    }
  }

  lemma BusyHasRun(limits: Thresholds, ts: seq<Thread>, t: Thread)
    requires limits.cpu >= 0.0 && Total(Runtime, ts) >= 0.0 && IsBusy(limits, ts, t)
    ensures Runtime(t) > 0.0
  {
    hide Runtime, Total;
    Lower(limits.cpu, 0.0, Total(Runtime, ts));
  }

  lemma TopIsBusy(limits: Thresholds, ts: seq<Thread>, t: Thread, top: Thread)
    requires limits.cpu >= 0.0 && Fewer(|ts| as real, limits.cpu) && t in ts && Runtime(t) > 0.0
    requires forall u | u in ts :: Runtime(u) <= Runtime(top)
    ensures IsBusy(limits, ts, top)
  {
    hide Runtime, Total, Fewer;
    assert Runtime(t) <= Runtime(top);
    TopShare(limits.cpu, Runtime, ts, Runtime(top));
  }

  lemma BoundedMeans(m: Measure, top: real, ts: seq<Thread>, n: real)
    requires n == |ts| as real && forall u | u in ts :: m(u) <= top
    ensures Total(m, ts) <= n * top
  {
    TotalBounded(m, top, ts);
  }

  lemma TopShare(share: real, m: Measure, ts: seq<Thread>, top: real)
    requires Fewer(|ts| as real, share) && share >= 0.0 && top > 0.0 && forall u | u in ts :: m(u) <= top
    ensures Total(m, ts) * share < top
  {
    hide Fewer, Total;
    var n := |ts| as real;
    BoundedMeans(m, top, ts, n);
    ShareBelow(n, share, Total(m, ts), top);
  }

  lemma Shrinks(x: real, top: real)
    requires x < 1.0 && top > 0.0
    ensures top * x < top
  {
    assert top * (1.0 - x) > 0.0;
  }

  lemma Below(a: real, b: real, c: real, d: real)
    requires a <= b == c < d
    ensures a < d
  {
  }

  lemma ShareBelow(n: real, share: real, total: real, top: real)
    requires total <= n * top && share >= 0.0 && Fewer(n, share) && top > 0.0
    ensures total * share < top
  {
    var x, y := n * share, n * top;
    Lower(share, total, y);
    Shrinks(x, top);
    Below(share * total, share * y, top * x, top);
  }
}
