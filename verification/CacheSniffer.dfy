/** The cache-miss table: merged frames, old rows cut off, the rest grouped by (cpu, tgid, pid). */
module CacheSniffer {
  import opened Options
  import opened Grouping
  import Inbox

  datatype Key = Key(cpu: int, tgid: int, pid: int)
  datatype Stat = Stat(total: int, l1i: int, llc: int, start: int, end: int)
  type Misses = Frame<Key, Stat>

  /** Counts are summed; the window is the hull of the two. */
  const JOIN: (Stat, Stat) -> Stat := (a: Stat, b: Stat) =>
    Stat(a.total + b.total, a.l1i + b.l1i, a.llc + b.llc,
         if b.start < a.start then b.start else a.start, if b.end > a.end then b.end else a.end)

  function MaxEnd(rows: Misses): int
    requires rows != []
  {
    var last := rows[|rows| - 1].1.end;
    if |rows| == 1 then last else var m := MaxEnd(rows[..|rows| - 1]); if last > m then last else m
  }

  function EndingAfter(rows: Misses, cut: int): Misses {
    if rows == [] then []
    else EndingAfter(rows[..|rows| - 1], cut) + if rows[|rows| - 1].1.end > cut then [rows[|rows| - 1]] else []
  }

  /**
   The cached table, with history: every record merged so far, which of them still count in the
   table, and the highest cutoff ever used.
   */
  datatype Cache = Cache(table: Misses, history: Misses, alive: seq<bool>, high: Option<int>)

  function Empty(): Cache {
    Cache([], [], [], None)
  }

  /** Does a cached row of this key outlive the cutoff? */
  predicate Outlives(table: Misses, k: Key, cut: int) {
    Fold(table, k, JOIN).Some? && Fold(table, k, JOIN).value.end > cut
  }

  function Survivors(c: Cache, cut: int): seq<bool>
    requires |c.alive| == |c.history|
  {
    seq(|c.alive|, i requires 0 <= i < |c.alive| => c.alive[i] && Outlives(c.table, c.history[i].0, cut))
  }

  function NewOnes(update: Misses, cut: int): seq<bool> {
    seq(|update|, i requires 0 <= i < |update| => update[i].1.end > cut)
  }

  function Higher(high: Option<int>, cut: int): int {
    if high.Some? && high.value > cut then high.value else cut
  }

  /**
   One merge of `_update_dataframe`, keeping `window` nanoseconds.  With no record at all the latest
   timestamp is not a number, so no cached row compares as newer and the whole table is dropped.
   */
  function Merge(c: Cache, frames: seq<Misses>, window: int): Cache
    requires |c.alive| == |c.history|
  {
    var update := Concat(frames);
    if frames == [] then c
    else if update == [] then c.(table := [], alive := seq(|c.alive|, _ => false))
    else
      var cut := MaxEnd(update) - window;
      Cache(Group(EndingAfter(c.table + update, cut), JOIN), c.history + update,
            Survivors(c, cut) + NewOnes(update, cut), Some(Higher(c.high, cut)))
  }

  /** The records that still count. */
  function Live(history: Misses, alive: seq<bool>): Misses
    requires |alive| == |history|
  {
    if history == [] then []
    else Live(history[..|history| - 1], alive[..|alive| - 1])
         + if alive[|alive| - 1] then [history[|history| - 1]] else []
  }

  // ----- The table is the fold of the live records -------------------------------------------------

  lemma {:induction false} LiveAppend(h: Misses, a: seq<bool>, u: Misses, b: seq<bool>)
    requires |a| == |h| && |b| == |u|
    ensures Live(h + u, a + b) == Live(h, a) + Live(u, b)
  {
    if u == [] {
      assert h + u == h && a + b == a;
    } else {
      var n := |h| + |u|;
      assert (h + u)[..n - 1] == h + u[..|u| - 1] && (a + b)[..n - 1] == a + b[..|b| - 1];
      LiveAppend(h, a, u[..|u| - 1], b[..|b| - 1]);
    }
  }

  lemma {:induction false} LiveNew(update: Misses, cut: int)
    ensures Live(update, NewOnes(update, cut)) == EndingAfter(update, cut)
  {
    if update == [] {
    } else {
      LiveNew(update[..|update| - 1], cut);
      assert NewOnes(update, cut)[..|update| - 1] == NewOnes(update[..|update| - 1], cut);
    }
  }

  lemma {:induction false} EndingAppend(a: Misses, b: Misses, cut: int)
    ensures EndingAfter(a + b, cut) == EndingAfter(a, cut) + EndingAfter(b, cut)
  {
    if b == [] {
      assert a + b == a;
    } else {
      assert (a + b)[..|a + b| - 1] == a + b[..|b| - 1];
      EndingAppend(a, b[..|b| - 1], cut);
    }
  }

  lemma {:induction false} EndingUnique(t: Misses, cut: int, k: Key)
    requires UniqueKeys(t)
    ensures Fold(EndingAfter(t, cut), k, JOIN) == if Outlives(t, k, cut) then Fold(t, k, JOIN) else None
  {
    if t == [] {
    } else {
      var init, r := t[..|t| - 1], t[|t| - 1];
      EndingUnique(init, cut, k);
      FoldAppend(EndingAfter(init, cut), r, k, JOIN);
      assert EndingAfter(init, cut) + [] == EndingAfter(init, cut);
      if r.0 == k {
        FoldAbsent(init, k, JOIN);
      }
    }
  }

  /** Switching off whole keys switches off their folds and nothing else. */
  lemma {:induction false} LiveMasked(h: Misses, a: seq<bool>, b: seq<bool>, table: Misses, cut: int, k: Key)
    requires |a| == |h| == |b|
    requires forall i | 0 <= i < |h| :: b[i] == (a[i] && Outlives(table, h[i].0, cut))
    ensures Fold(Live(h, b), k, JOIN) == if Outlives(table, k, cut) then Fold(Live(h, a), k, JOIN) else None
  {
    if h == [] {
    } else {
      var n := |h| - 1;
      hide Outlives;
      LiveMasked(h[..n], a[..n], b[..n], table, cut, k);
      FoldAppend(Live(h[..n], a[..n]), h[n], k, JOIN);
      FoldAppend(Live(h[..n], b[..n]), h[n], k, JOIN);
      assert Live(h[..n], a[..n]) + [] == Live(h[..n], a[..n]);
      assert Live(h[..n], b[..n]) + [] == Live(h[..n], b[..n]);
    }
  }

  /** Each cached row is the fold of the live records of its key, and each live key has a row. */
  ghost predicate Tracks(c: Cache) {
    && |c.alive| == |c.history| && UniqueKeys(c.table)
    && forall k :: Fold(c.table, k, JOIN) == Fold(Live(c.history, c.alive), k, JOIN)
  }

  lemma {:induction false} NoneAlive(h: Misses, a: seq<bool>)
    requires |a| == |h| && forall i | 0 <= i < |a| :: !a[i]
    ensures Live(h, a) == []
  {
    if h == [] {
    } else {
      NoneAlive(h[..|h| - 1], a[..|a| - 1]);
    }
  }

  lemma MergeFolds(c: Cache, update: Misses, cut: int, k: Key)
    requires Tracks(c)
    ensures Fold(EndingAfter(c.table + update, cut), k, JOIN)
         == Fold(Live(c.history + update, Survivors(c, cut) + NewOnes(update, cut)), k, JOIN)
  {
    EndingAppend(c.table, update, cut);
    LiveAppend(c.history, Survivors(c, cut), update, NewOnes(update, cut));
    LiveNew(update, cut);
    EndingUnique(c.table, cut, k);
    LiveMasked(c.history, c.alive, Survivors(c, cut), c.table, cut, k);
    FoldFrom(EndingAfter(c.table, cut), Live(c.history, Survivors(c, cut)), EndingAfter(update, cut), k, JOIN);
  }

  lemma UpdateTracks(c: Cache, update: Misses, cut: int, high: Option<int>)
    requires Tracks(c)
    ensures Tracks(Cache(Group(EndingAfter(c.table + update, cut), JOIN), c.history + update,
                         Survivors(c, cut) + NewOnes(update, cut), high))
  {
    hide Fold, Live, EndingAfter, Group, UniqueKeys;
    UniqueGroup(EndingAfter(c.table + update, cut), JOIN);
    forall k
      ensures Fold(Group(EndingAfter(c.table + update, cut), JOIN), k, JOIN)
           == Fold(Live(c.history + update, Survivors(c, cut) + NewOnes(update, cut)), k, JOIN)
    {
      GroupFolds(EndingAfter(c.table + update, cut), k, JOIN);
      MergeFolds(c, update, cut, k);
    }
  }

  /** Every update keeps the table the fold of the live records, whatever it brings. */
  lemma MergeTracks(c: Cache, frames: seq<Misses>, window: int)
    requires Tracks(c)
    ensures Tracks(Merge(c, frames, window))
  {
    var update := Concat(frames);
    if frames != [] {
      if update == [] {
        NoneAlive(c.history, seq(|c.alive|, _ => false));
      } else {
        hide Tracks;
        var cut := MaxEnd(update) - window;
        UpdateTracks(c, update, cut, Some(Higher(c.high, cut)));
      }
    }
  }

  // ----- Nothing recent is dropped -------------------------------------------------------------------

  /** Every record that ends after the highest cutoff so far still counts. */
  ghost predicate Recent(c: Cache) {
    && |c.alive| == |c.history|
    && forall i | 0 <= i < |c.history| :: c.high.None? || c.history[i].1.end > c.high.value ==> c.alive[i]
  }

  lemma {:induction false} LiveEnd(h: Misses, a: seq<bool>, i: nat)
    requires |a| == |h| && i < |h| && a[i]
    ensures Fold(Live(h, a), h[i].0, JOIN).Some? && Fold(Live(h, a), h[i].0, JOIN).value.end >= h[i].1.end
  {
    var n := |h| - 1;
    FoldAppend(Live(h[..n], a[..n]), h[n], h[i].0, JOIN);
    assert Live(h[..n], a[..n]) + [] == Live(h[..n], a[..n]);
    if i == n {
    } else {
      LiveEnd(h[..n], a[..n], i);
    }
  }

  lemma MergeKeepsRecent(c: Cache, frames: seq<Misses>, window: int)
    requires Tracks(c) && Recent(c) && (frames == [] || Concat(frames) != [])
    ensures Recent(Merge(c, frames, window))
  {
    if frames != [] {
      var update, c' := Concat(frames), Merge(c, frames, window);
      var cut := MaxEnd(update) - window;
      forall i | 0 <= i < |c.history| && c.history[i].1.end > c'.high.value
        ensures Survivors(c, cut)[i]
      {
        LiveEnd(c.history, c.alive, i);
      }
    }
  }

  lemma {:induction false} MaxEndReached(rows: Misses)
    requires rows != []
    ensures exists i | 0 <= i < |rows| :: rows[i].1.end == MaxEnd(rows)
  {
    if |rows| > 1 {
      MaxEndReached(rows[..|rows| - 1]);
      var i :| 0 <= i < |rows| - 1 && rows[..|rows| - 1][i].1.end == MaxEnd(rows[..|rows| - 1]);
      assert rows[i].1.end == MaxEnd(rows[..|rows| - 1]);
      assert rows[|rows| - 1].1.end >= MaxEnd(rows) || rows[i].1.end == MaxEnd(rows);
    } else {
      assert rows[0].1.end == MaxEnd(rows);
    }
  }

  /** Some record always ends after the highest cutoff. */
  ghost predicate HasRecent(c: Cache) {
    exists i :: 0 <= i < |c.history| && (c.high.None? || c.history[i].1.end > c.high.value)
  }

  lemma MergeHasRecent(c: Cache, frames: seq<Misses>, window: int)
    requires |c.alive| == |c.history| && window > 0
    requires HasRecent(c) || (c.high.None? && Concat(frames) != [])
    ensures HasRecent(Merge(c, frames, window))
  {
    var update, c' := Concat(frames), Merge(c, frames, window);
    if frames != [] && update != [] {
      if c'.high.value == MaxEnd(update) - window {
        MaxEndReached(update);
        var i :| 0 <= i < |update| && update[i].1.end == MaxEnd(update);
        assert c'.history[|c.history| + i] == update[i];
      } else {
        var i :| 0 <= i < |c.history| && (c.high.None? || c.history[i].1.end > c.high.value);
        assert c'.history[i] == c.history[i];
      }
    } else {
      var i :| 0 <= i < |c.history| && (c.high.None? || c.history[i].1.end > c.high.value);
      assert c'.history[i] == c.history[i];
    }
  }

  /**
   Recent records survive an update exactly when it brings at least one record: frames that are
   all empty wipe the table, recent rows included.
   */
  lemma MergeKeepsRecentIff(c: Cache, frames: seq<Misses>, window: int)
    requires Tracks(c) && Recent(c) && HasRecent(c) && frames != []
    ensures Recent(Merge(c, frames, window)) <==> Concat(frames) != []
  {
    if Concat(frames) != [] {
      MergeKeepsRecent(c, frames, window);
    } else {
      var i :| 0 <= i < |c.history| && (c.high.None? || c.history[i].1.end > c.high.value);
      assert !Merge(c, frames, window).alive[i];
    }
  }

  // ----- Every row is recent --------------------------------------------------------------------------

  lemma {:induction false} FoldEnds(rows: Misses, cut: int, k: Key)
    ensures Fold(EndingAfter(rows, cut), k, JOIN).Some? ==> Fold(EndingAfter(rows, cut), k, JOIN).value.end > cut
  {
    if rows == [] {
    } else {
      FoldEnds(rows[..|rows| - 1], cut, k);
      FoldAppend(EndingAfter(rows[..|rows| - 1], cut), rows[|rows| - 1], k, JOIN);
      assert EndingAfter(rows[..|rows| - 1], cut) + [] == EndingAfter(rows[..|rows| - 1], cut);
    }
  }

  lemma {:induction false} MaxEndAbove(rows: Misses, i: nat)
    requires i < |rows|
    ensures rows[i].1.end <= MaxEnd(rows)
  {
    if i < |rows| - 1 {
      MaxEndAbove(rows[..|rows| - 1], i);
    }
  }

  /**
   Right after an update that merged records, every cached row ends after the cutoff: within the
   window before the end of each record of the update.
   */
  lemma RowsEndAfterCutoff(c: Cache, frames: seq<Misses>, window: int, i: nat)
    requires |c.alive| == |c.history| && i < |Merge(c, frames, window).table|
    ensures var end := Merge(c, frames, window).table[i].1.end;
            forall j | 0 <= j < |Concat(frames)| :: end > Concat(frames)[j].1.end - window
  {
    var update, end := Concat(frames), Merge(c, frames, window).table[i].1.end;
    if update != [] {
      EndsAfterCutoff(c, frames, window, i);
      forall j | 0 <= j < |update|
        ensures end > update[j].1.end - window
      {
        MaxEndAbove(update, j);
      }
    }
  }

  lemma EndsAfterCutoff(c: Cache, frames: seq<Misses>, window: int, i: nat)
    requires |c.alive| == |c.history| && Concat(frames) != []
    requires i < |Merge(c, frames, window).table|
    ensures Merge(c, frames, window).table[i].1.end > MaxEnd(Concat(frames)) - window
  {
    var rows := EndingAfter(c.table + Concat(frames), MaxEnd(Concat(frames)) - window);
    var t := Group(rows, JOIN);
    assert frames != [];
    UniqueGroup(rows, JOIN);
    FoldUnique(t, i, JOIN);
    GroupFolds(rows, t[i].0, JOIN);
    FoldEnds(c.table + Concat(frames), MaxEnd(Concat(frames)) - window, t[i].0);
  }

  // ----- Totals lie between the window and the whole -----------------------------------------------

  datatype Measure = Total | L1i | Llc

  function Get(m: Measure, s: Stat): int {
    match m
    case Total => s.total
    case L1i => s.l1i
    case Llc => s.llc
  }

  /** The sum of a measure over the records of one key that end after `cut` (all of them for None). */
  function SumOf(rows: Misses, k: Key, m: Measure, cut: Option<int>): int {
    if rows == [] then 0
    else
      var r := rows[|rows| - 1];
      SumOf(rows[..|rows| - 1], k, m, cut)
      + if r.0 == k && (cut.None? || r.1.end > cut.value) then Get(m, r.1) else 0
  }

  lemma {:induction false} FoldSums(rows: Misses, k: Key, m: Measure)
    ensures SumOf(rows, k, m, None) == if Fold(rows, k, JOIN).Some? then Get(m, Fold(rows, k, JOIN).value) else 0
  {
    if rows == [] {
    } else {
      FoldSums(rows[..|rows| - 1], k, m);
    }
  }

  predicate NonNegative(rows: Misses) {
    forall i | 0 <= i < |rows| :: rows[i].1.total >= 0 && rows[i].1.l1i >= 0 && rows[i].1.llc >= 0
  }

  lemma {:induction false} LiveBetween(h: Misses, a: seq<bool>, k: Key, m: Measure, high: Option<int>)
    requires |a| == |h| && NonNegative(h)
    requires forall i | 0 <= i < |h| :: high.None? || h[i].1.end > high.value ==> a[i]
    ensures SumOf(h, k, m, high) <= SumOf(Live(h, a), k, m, None) <= SumOf(h, k, m, None)
  {
    if h == [] {
    } else {
      var n := |h| - 1;
      LiveBetween(h[..n], a[..n], k, m, high);
      assert (Live(h[..n], a[..n]) + [h[n]])[..|Live(h[..n], a[..n])|] == Live(h[..n], a[..n]);
      assert Live(h[..n], a[..n]) + [] == Live(h[..n], a[..n]);
      assert h[n].1.total >= 0;
    }
  }

  function OrZero(m: Measure, v: Option<Stat>): int {
    if v.Some? then Get(m, v.value) else 0
  }

  /**
   For each key and measure, the cached value lies between the true sum over the records newer than
   the highest cutoff and the sum over all records ever merged; with no cached row the former is empty.
   */
  lemma CachedBetween(c: Cache, k: Key, m: Measure)
    requires Tracks(c) && Recent(c) && NonNegative(c.history)
    ensures SumOf(c.history, k, m, c.high) <= OrZero(m, Fold(c.table, k, JOIN)) <= SumOf(c.history, k, m, None)
    ensures Fold(c.table, k, JOIN).None? ==>
              forall i | 0 <= i < |c.history| && c.history[i].0 == k ::
                c.high.Some? && c.history[i].1.end <= c.high.value
  {
    FoldSums(Live(c.history, c.alive), k, m);
    LiveBetween(c.history, c.alive, k, m, c.high);
    if Fold(c.table, k, JOIN).None? {
      forall i | 0 <= i < |c.history| && c.history[i].0 == k
        ensures c.high.Some? && c.history[i].1.end <= c.high.value
      {
        if c.alive[i] {
          LiveEnd(c.history, c.alive, i);
          assert false;
        }
      }
    }
  }

  /** The sums of a list are those of its halves; a record counts under its own key if it ends after the cut. */
  lemma {:induction false} SumSplits(a: Misses, b: Misses, k: Key, m: Measure, cut: Option<int>)
    ensures SumOf(a + b, k, m, cut) == SumOf(a, k, m, cut) + SumOf(b, k, m, cut)
  {
    if b == [] {
      assert a + b == a;
    } else {
      SumSplits(a, b[..|b| - 1], k, m, cut);
      assert (a + b)[..|a + b| - 1] == a + b[..|b| - 1];
    }
  }

  lemma SumOne(k: Key, s: Stat, k': Key, cut: int)
    ensures var counts := k' == k && s.end > cut;
            && SumOf([(k, s)], k', Total, Some(cut)) == (if counts then s.total else 0)
            && SumOf([(k, s)], k', L1i, Some(cut)) == (if counts then s.l1i else 0)
            && SumOf([(k, s)], k', Llc, Some(cut)) == (if counts then s.llc else 0)
    ensures SumOf([(k, s)], k', Total, None) == (if k' == k then s.total else 0)
    ensures SumOf([(k, s)], k', L1i, None) == (if k' == k then s.l1i else 0)
    ensures SumOf([(k, s)], k', Llc, None) == (if k' == k then s.llc else 0)
  {
    assert [(k, s)][..0] == [];
    assert forall m, c :: SumOf([], k', m, c) == 0;
  }

  /** A grouped row's counts are the sums of its records, and its window is their hull, both ends attained. */
  lemma {:induction false} FoldMeans(rows: Misses, k: Key)
    requires Fold(rows, k, JOIN).Some?
    ensures var v := Fold(rows, k, JOIN).value;
            && v.total == SumOf(rows, k, Total, None)
            && v.l1i == SumOf(rows, k, L1i, None)
            && v.llc == SumOf(rows, k, Llc, None)
    ensures var v := Fold(rows, k, JOIN).value;
            && (forall r | r in rows && r.0 == k :: v.start <= r.1.start && r.1.end <= v.end)
            && (exists r | r in rows :: r.0 == k && r.1.start == v.start)
            && (exists r | r in rows :: r.0 == k && r.1.end == v.end)
  {
    FoldSums(rows, k, Total);
    FoldSums(rows, k, L1i);
    FoldSums(rows, k, Llc);
    FoldWindow(rows, k);
  }

  lemma {:induction false} FoldWindow(rows: Misses, k: Key)
    requires Fold(rows, k, JOIN).Some?
    ensures var v := Fold(rows, k, JOIN).value;
            && (forall r | r in rows && r.0 == k :: v.start <= r.1.start && r.1.end <= v.end)
            && (exists r | r in rows :: r.0 == k && r.1.start == v.start)
            && (exists r | r in rows :: r.0 == k && r.1.end == v.end)
  {
    var init, last := rows[..|rows| - 1], rows[|rows| - 1];
    assert forall r :: r in rows <==> r in init || r == last;
    if Fold(init, k, JOIN).Some? {
      FoldWindow(init, k);
    } else {
      FoldAbsent(init, k, JOIN);
    }
  }

  // ----- Runs ------------------------------------------------------------------------------------------

  function After(merged: seq<seq<Misses>>, window: int): (c: Cache)
    ensures |c.alive| == |c.history|
  {
    if merged == [] then Empty()
    else Merge(After(merged[..|merged| - 1], window), merged[|merged| - 1], window)
  }

  /** No update consists of empty frames only. */
  predicate BringRecords(merged: seq<seq<Misses>>) {
    forall i | 0 <= i < |merged| :: merged[i] == [] || Concat(merged[i]) != []
  }

  lemma {:induction false} RunsSound(merged: seq<seq<Misses>>, window: int)
    requires BringRecords(merged)
    ensures Tracks(After(merged, window)) && Recent(After(merged, window))
  {
    if merged != [] {
      var before := merged[..|merged| - 1];
      RunsSound(before, window);
      MergeTracks(After(before, window), merged[|merged| - 1], window);
      MergeKeepsRecent(After(before, window), merged[|merged| - 1], window);
    } else {
      assert Live([], []) == [];
    }
  }

  lemma {:induction false} RunsHaveRecent(merged: seq<seq<Misses>>, window: int)
    requires BringRecords(merged) && window > 0
    ensures var c := After(merged, window);
            HasRecent(c) || (c == Empty() && forall i | 0 <= i < |merged| :: merged[i] == [])
  {
    if merged == [] {
    } else {
      var before, last := merged[..|merged| - 1], merged[|merged| - 1];
      RunsHaveRecent(before, window);
      if HasRecent(After(before, window)) || last != [] {
        MergeHasRecent(After(before, window), last, window);
      }
    }
  }

  /**
   After any run of updates that brought records, one more update leaves every recent record counted
   if and only if it brings a record itself.
   */
  lemma RunsKeepRecentIff(merged: seq<seq<Misses>>, frames: seq<Misses>, window: int)
    requires BringRecords(merged) && (exists i :: 0 <= i < |merged| && merged[i] != [])
    requires window > 0 && frames != []
    ensures Recent(After(merged + [frames], window)) <==> Concat(frames) != []
  {
    RunsSound(merged, window);
    RunsHaveRecent(merged, window);
    MergeKeepsRecentIff(After(merged, window), frames, window);
    assert (merged + [frames])[..|merged|] == merged;
  }

  /** After any sequence of updates: every cached value is bounded by the window and by the whole. */
  lemma RunsBetween(merged: seq<seq<Misses>>, window: int, k: Key, m: Measure)
    requires BringRecords(merged) && NonNegative(After(merged, window).history)
    ensures var c := After(merged, window);
            SumOf(c.history, k, m, c.high) <= OrZero(m, Fold(c.table, k, JOIN)) <= SumOf(c.history, k, m, None)
  {
    RunsSound(merged, window);
    CachedBetween(After(merged, window), k, m);
  }

  /**
   If the cutoffs did not go back, the bounds hold for the current one: right after an update the
   cached values cover every record newer than its cutoff.
   */
  lemma CurrentWindowCovered(merged: seq<seq<Misses>>, frames: seq<Misses>, window: int, k: Key, m: Measure)
    requires BringRecords(merged) && Concat(frames) != []
    requires var cut := MaxEnd(Concat(frames)) - window;
             var high := After(merged, window).high; high.None? || high.value <= cut
    requires NonNegative(After(merged + [frames], window).history)
    ensures var c := After(merged + [frames], window);
            && SumOf(c.history, k, m, Some(MaxEnd(Concat(frames)) - window)) <= OrZero(m, Fold(c.table, k, JOIN))
            && OrZero(m, Fold(c.table, k, JOIN)) <= SumOf(c.history, k, m, None)
  {
    assert (merged + [frames])[..|merged|] == merged;
    RunsBetween(merged + [frames], window, k, m);
  }

  lemma SumAppend(rows: Misses, r: (Key, Stat), k: Key, m: Measure)
    ensures SumOf(rows + [r], k, m, None) == SumOf(rows, k, m, None) + if r.0 == k then Get(m, r.1) else 0
  {
    assert (rows + [r])[..|rows|] == rows;
  }

  lemma {:induction false} LiveBelow(h: Misses, a: seq<bool>, k: Key, m: Measure)
    requires |a| == |h| && NonNegative(h)
    ensures 0 <= SumOf(Live(h, a), k, m, None) <= SumOf(h, k, m, None)
  {
    hide SumOf;
    SumNothing(k, m);
    if h == [] {
    } else {
      var n := |h| - 1;
      LiveBelow(h[..n], a[..n], k, m);
      SumAppend(Live(h[..n], a[..n]), h[n], k, m);
      SumAppend(h[..n], h[n], k, m);
      assert h == h[..n] + [h[n]];
      assert Live(h[..n], a[..n]) + [] == Live(h[..n], a[..n]);
      assert h[n].1.total >= 0;
    }
  }

  lemma SumNothing(k: Key, m: Measure)
    ensures SumOf([], k, m, None) == 0
  {
  }

  lemma {:induction false} RunsTrack(merged: seq<seq<Misses>>, window: int)
    ensures Tracks(After(merged, window))
  {
    if merged != [] {
      var before := merged[..|merged| - 1];
      RunsTrack(before, window);
      MergeTracks(After(before, window), merged[|merged| - 1], window);
    } else {
      assert Live([], []) == [];
    }
  }

  lemma {:induction false} HistoryIsMerged(merged: seq<seq<Misses>>, window: int)
    ensures After(merged, window).history == Concat(Inbox.Flatten(merged))
  {
    if merged == [] {
    } else {
      var before, last := merged[..|merged| - 1], merged[|merged| - 1];
      HistoryIsMerged(before, window);
      ConcatSplits(Inbox.Flatten(before), last);
      assert Concat(last) == [] ==> After(before, window).history + Concat(last) == After(before, window).history;
    }
  }

  /**
   For any interleaving of deliveries with one consumer's updates, wiped tables included, a cached
   value never exceeds the sum over the records merged so far, which are a prefix of the deliveries.
   */
  lemma NeverOvercounts(steps: seq<Inbox.Step<Misses>>, b: Inbox.Box<Misses>, window: int, k: Key, m: Measure)
    requires Inbox.Runs(Inbox.Empty(), steps, b) && NonNegative(Concat(Inbox.Flatten(b.merged)))
    ensures var cached := OrZero(m, Fold(After(b.merged, window).table, k, JOIN));
            0 <= cached <= SumOf(Concat(Inbox.Flatten(b.merged)), k, m, None)
    ensures Inbox.Flatten(b.merged) <= b.delivered
  {
    var c := After(b.merged, window);
    RunsTrack(b.merged, window);
    HistoryIsMerged(b.merged, window);
    FoldSums(Live(c.history, c.alive), k, m);
    LiveBelow(c.history, c.alive, k, m);
    Inbox.NothingLostOrDoubled(steps, b);
  }

  // ----- The sniffer -------------------------------------------------------------------------------------

  class Sniffer {
    const window: int
    var records: seq<Misses>
    var cacheDf: Misses
    ghost var history: Misses
    ghost var alive: seq<bool>
    ghost var high: Option<int>

    constructor (maximumSeconds: int)
      ensures window == maximumSeconds * 1_000_000_000 && records == [] && View() == Empty()
    {
      window := maximumSeconds * 1_000_000_000;
      records, cacheDf := [], [];
      history, alive, high := [], [], None;
    }

    ghost function View(): Cache
      reads this
    {
      Cache(cacheDf, history, alive, high)
    }

    method RecordDf(df: Misses)
      modifies this`records
      ensures records == old(records) + [df]
    {
      records := records + [df];
    }

    method UpdateDataframe() returns (df: Misses)
      requires |alive| == |history|
      modifies this
      ensures records == [] && |alive| == |history|
      ensures View() == Merge(old(View()), old(records), window) && df == cacheDf
    {
      var updates := records;
      records := [];
      ghost var now := Merge(View(), updates, window);
      if updates == [] {
        return cacheDf;
      }
      var update := Concat(updates);
      cacheDf := cacheDf + update;
      if update == [] {
        cacheDf := [];
      } else {
        cacheDf := EndingAfter(cacheDf, MaxEnd(update) - window);
      }
      cacheDf := Group(cacheDf, JOIN);
      history, alive, high := now.history, now.alive, now.high;
      return cacheDf;
    }
  }
}
