/** What the counting protocol guarantees over every run, and what it cannot. */
module CacheMissAccounting {
  import opened Options
  import opened BpfTable
  import opened CacheMissProtocol
  import opened CacheMissInvariant

  // ----- Main results ---------------------------------------------------------------------

  /** The filter turns the event down: another process, another thread or another CPU is asked for. */
  predicate TurnedDown(cfg: Config, ev: Event) {
    || (cfg.pid != 0 && ev.tgid != cfg.pid)
    || (cfg.tid != 0 && ev.pid != cfg.tid)
    || (cfg.cpu != 0xFFFF_FFFF && ev.cpu != cfg.cpu)
  }

  /** The event is of this thread group, thread, CPU and kind. */
  predicate IsOf(ev: Event, k: Key, l1i: bool) {
    ev.tgid == k.tgid && ev.pid == k.pid && ev.cpu == k.cpu && ev.l1i == l1i
  }

  /** The events of one thread group, thread, CPU and kind that the filter does not turn down. */
  ghost function EventsOf(s: State, k: Key, l1i: bool): set<nat> {
    set id | id in s.handlers && !TurnedDown(s.cfg, s.handlers[id].ev) && IsOf(s.handlers[id].ev, k, l1i)
  }

  datatype Account = InRow | InCell | AsDrop | Running | AsLoss | Refused

  function AccountOf(f: Fate): Account {
    match f
    case Emitted(_) => InRow
    case Counted(_) => InCell
    case Dropped => AsDrop
    case Lost => AsLoss
    case Skipped => Refused
    case _ => Running
  }

  /** The events of one key and kind that stand in one account. */
  ghost function Booked(s: State, k: Key, l1i: bool, a: Account): set<nat> {
    set id | id in s.handlers && AccountOf(s.handlers[id].fate) == a && IsOf(s.handlers[id].ev, k, l1i)
  }

  /** Those in one of the first `n` rows. */
  ghost function InRows(s: State, k: Key, l1i: bool, n: nat): set<nat> {
    set id | id in s.handlers && s.handlers[id].fate.Emitted? && s.handlers[id].fate.row < n
             && IsOf(s.handlers[id].ev, k, l1i)
  }

  /** What the rows report about one key and kind. */
  function RowSum(rows: seq<Row>, k: Key, l1i: bool): nat {
    if rows == [] then 0
    else RowSum(rows[..|rows| - 1], k, l1i)
         + var r := rows[|rows| - 1]; if r.key != k then 0 else if l1i then r.l1i else r.llc
  }

  /** What a table still holds for one key and kind beyond what was already copied into a row. */
  function Residue(t: CountTable, k: Key, l1i: bool): int {
    if k !in t then 0
    else if l1i then t[k].value.l1i - t[k].value.takenL1i
    else t[k].value.llc - t[k].value.takenLlc
  }

  lemma RowAdds(s: State, n: nat, k: Key, l1i: bool)
    requires HandlersOk(s) && n < |s.rows|
    ensures InRows(s, k, l1i, n + 1) ==
            InRows(s, k, l1i, n) + if s.rows[n].key == k then At(s.handlers, Emitted(n), l1i) else {}
    ensures InRows(s, k, l1i, n) !! At(s.handlers, Emitted(n), l1i)
  {
  }

  lemma {:induction false} RowSumCounts(s: State, n: nat, k: Key, l1i: bool)
    requires HandlersOk(s) && RowsOk(s) && n <= |s.rows|
    ensures RowSum(s.rows[..n], k, l1i) == |InRows(s, k, l1i, n)|
  {
    if n == 0 {
      assert InRows(s, k, l1i, 0) == {};
    } else {
      RowSumCounts(s, n - 1, k, l1i);
      RowAdds(s, n - 1, k, l1i);
      assert s.rows[..n][..n - 1] == s.rows[..n - 1];
      assert RowOk(s.handlers, s.rows[n - 1], n - 1);
    }
  }

  /** The events waiting in the cell of `k` of one table. */
  ghost function Waiting(s: State, m: bool, k: Key, l1i: bool): set<nat> {
    if k in TableOf(s, m) then At(s.handlers, Counted(TableOf(s, m)[k].value.gen), l1i) else {}
  }

  lemma WaitingSplits(s: State, k: Key, l1i: bool)
    requires TablesOk(s) && HandlersOk(s)
    ensures Booked(s, k, l1i, InCell) == Waiting(s, false, k, l1i) + Waiting(s, true, k, l1i)
    ensures Waiting(s, false, k, l1i) !! Waiting(s, true, k, l1i)
  {
  }

  /** An event that passed the filter is in one of the five accounts. */
  lemma BookedAs(s: State, id: nat)
    requires HandlersOk(s) && id in s.handlers
    ensures AccountOf(s.handlers[id].fate) == Refused <==> TurnedDown(s.cfg, s.handlers[id].ev)
    ensures s.handlers[id].fate.Emitted? ==> s.handlers[id].fate.row < |s.rows|
  {
    assert HandlerOk(s, s.handlers[id]);
  }

  lemma BookedOnce(s: State, k: Key, l1i: bool)
    requires HandlersOk(s)
    ensures EventsOf(s, k, l1i)
         == Booked(s, k, l1i, InRow) + Booked(s, k, l1i, InCell) + Booked(s, k, l1i, AsDrop)
          + Booked(s, k, l1i, Running) + Booked(s, k, l1i, AsLoss)
    ensures Booked(s, k, l1i, InRow) == InRows(s, k, l1i, |s.rows|)
  {
    hide HandlersOk, TurnedDown, IsOf;
    forall id | id in s.handlers {
      BookedAs(s, id);
    }
  }

  lemma FiveParts(r: set<nat>, c: set<nat>, d: set<nat>, i: set<nat>, l: set<nat>)
    requires r !! c !! d !! i !! l
    ensures |r + c + d + i + l| == |r| + |c| + |d| + |i| + |l|
  {
  }

  lemma BookedApart(s: State, k: Key, l1i: bool, a: Account, b: Account)
    requires a != b
    ensures Booked(s, k, l1i, a) !! Booked(s, k, l1i, b)
  {
  }

  lemma AccountsPartition(s: State, k: Key, l1i: bool)
    requires HandlersOk(s)
    ensures |EventsOf(s, k, l1i)|
         == |InRows(s, k, l1i, |s.rows|)| + |Booked(s, k, l1i, InCell)| + |Booked(s, k, l1i, AsDrop)|
          + |Booked(s, k, l1i, Running)| + |Booked(s, k, l1i, AsLoss)|
  {
    BookedOnce(s, k, l1i);
    forall a, b | a != b {
      BookedApart(s, k, l1i, a, b);
    }
    FiveParts(Booked(s, k, l1i, InRow), Booked(s, k, l1i, InCell), Booked(s, k, l1i, AsDrop),
              Booked(s, k, l1i, Running), Booked(s, k, l1i, AsLoss));
  }

  /**
   Exact accounting, per thread, CPU and event kind: in every reachable state the matching events
   are what the rows report, what the two maps still hold, the drops, the handlers still running
   and the losses.
   */
  lemma Accounting(s: State, k: Key, l1i: bool)
    requires Reachable(s)
    ensures |EventsOf(s, k, l1i)|
         == RowSum(s.rows, k, l1i) + Residue(s.map0, k, l1i) + Residue(s.map1, k, l1i)
          + |Booked(s, k, l1i, AsDrop)| + |Booked(s, k, l1i, Running)| + |Booked(s, k, l1i, AsLoss)|
  {
    ReachableInv(s);
    AccountsPartition(s, k, l1i);
    WaitingSplits(s, k, l1i);
    RowSumCounts(s, |s.rows|, k, l1i);
    assert s.rows[..|s.rows|] == s.rows;
    assert k in s.map0 ==> CellOk(s.handlers, s.map0[k].value);
    assert k in s.map1 ==> CellOk(s.handlers, s.map1[k].value);
    assert |Waiting(s, false, k, l1i)| == Residue(s.map0, k, l1i);
    assert |Waiting(s, true, k, l1i)| == Residue(s.map1, k, l1i);
  }

  /** A row reports exactly its own events, all of its key: nothing is emitted twice. */
  lemma RowsExact(s: State, i: nat, l1i: bool)
    requires Reachable(s) && i < |s.rows|
    ensures (if l1i then s.rows[i].l1i else s.rows[i].llc) == |At(s.handlers, Emitted(i), l1i)|
    ensures At(s.handlers, Emitted(i), l1i) <= EventsOf(s, s.rows[i].key, l1i)
    ensures forall j | 0 <= j < |s.rows| && j != i :: At(s.handlers, Emitted(i), l1i) !! At(s.handlers, Emitted(j), l1i)
  {
    ReachableInv(s);
    assert RowOk(s.handlers, s.rows[i], i);
  }

  /** A row carries the thread group, the thread and the CPU of every event in it. */
  lemma EmittedFields(s: State, id: nat)
    requires Reachable(s) && id in s.handlers && s.handlers[id].fate.Emitted?
    ensures var ev, r := s.handlers[id].ev, s.handlers[id].fate.row;
            && r < |s.rows|
            && s.rows[r].key.tgid == ev.tgid && s.rows[r].key.pid == ev.pid && s.rows[r].key.cpu == ev.cpu
  {
    ReachableInv(s);
    assert HandlerOk(s, s.handlers[id]);
  }

  /** An event is skipped if and only if the filter turns it down. */
  lemma SkippedIff(s: State, id: nat)
    requires Reachable(s) && id in s.handlers
    ensures var ev := s.handlers[id].ev;
            s.handlers[id].fate == Skipped <==>
            || (s.cfg.pid != 0 && ev.tgid != s.cfg.pid)
            || (s.cfg.tid != 0 && ev.pid != s.cfg.tid)
            || (s.cfg.cpu != 0xFFFF_FFFF && ev.cpu != s.cfg.cpu)
  {
    ReachableInv(s);
    assert HandlerOk(s, s.handlers[id]);
  }

  /** Only a handler that was overtaken by a flip after it chose its map can lose its event. */
  lemma OnlyStraddlersLose(s: State)
    requires Reachable(s)
    ensures forall id | id in s.handlers && s.handlers[id].fate == Lost :: s.handlers[id].straddled
    ensures (forall id | id in s.handlers :: !s.handlers[id].straddled) ==>
              forall k, l1i :: Booked(s, k, l1i, AsLoss) == {}
  {
    ReachableInv(s);
    forall id | id in s.handlers && s.handlers[id].fate == Lost
      ensures s.handlers[id].straddled
    {
      assert HandlerOk(s, s.handlers[id]);
    }
  }

  /** The rotator has finished copying the retired map of this round. */
  predicate Collected(r: Rotator) {
    !r.Walking? && !r.Reading? && !r.Advancing?
  }

  /**
   No event is left behind by its window: once a round is collected, an event of a finished
   handler that never straddled is in a row, was dropped, or belongs to the window now being counted.
   */
  lemma WindowComplete(s: State, id: nat)
    requires Reachable(s) && Collected(s.rotator) && id in s.handlers
    ensures var h := s.handlers[id];
            h.straddled || h.fate == Skipped || InFlight(h.fate) || h.fate == Dropped
            || (h.fate.Emitted? && h.fate.row < |s.rows| && (s.rotator == Sleeping ==> h.fate.row < s.written))
            || (h.fate.Counted? && LivesIn(TableOf(s, s.active), KeyOf(h.ev), h.fate.gen))
  {
    ReachableInv(s);
    assert HandlerOk(s, s.handlers[id]);
  }

  /**
   The reported drops never exceed the real ones; they fall short by exactly the drops that
   slipped in between the reading and the resetting of the counter, plus those not read yet.
   */
  lemma DropsReported(s: State)
    requires Reachable(s)
    ensures var actual := |At(s.handlers, Dropped, true)| + |At(s.handlers, Dropped, false)|;
            && s.reported <= actual
            && (!s.rotator.Resetting? ==> actual == s.reported + s.drops + s.forgotten)
  {
    ReachableInv(s);
  }

  // ----- What the protocol cannot promise -------------------------------------------------

  lemma {:induction false} RunExtends(s: State, steps: seq<Step>, s': State, step: Step)
    requires Run(s, steps, s') && Enabled(s', step)
    ensures Run(s, steps + [step], Apply(s', step))
    decreases |steps|
  {
    if steps == [] {
      assert [step][1..] == [];
    } else {
      RunExtends(Apply(s, steps[0]), steps[1..], s', step);
      assert (steps + [step])[1..] == steps[1..] + [step];
    }
  }

  lemma ReachNext(s: State, step: Step)
    requires Reachable(s) && Enabled(s, step)
    ensures Reachable(Apply(s, step))
  {
    var cfg, steps :| Run(Initial(cfg), steps, s);
    RunExtends(Initial(cfg), steps, s, step);
  }

  lemma InitialReachable(cfg: Config)
    ensures Reachable(Initial(cfg))
  {
    assert Run(Initial(cfg), [], Initial(cfg));
  }

  /** One handler that has chosen its map. */
  lemma OneChosen(cfg: Config, ev: Event) returns (s: State)
    requires Matches(cfg, ev)
    ensures Reachable(s) && s.rotator == Sleeping && !s.active && s.map0 == map[] && s.owners == []
    ensures s.handlers == map[0 := Handler(ev, Looking(false), false)]
    ensures s.drops == 0 && s.reported == 0 && s.forgotten == 0
  {
    hide Reachable;
    s := Initial(cfg);
    InitialReachable(cfg);
    ReachNext(s, Handle(0, Enter(ev)));
    s := Apply(s, Handle(0, Enter(ev)));
    ReachNext(s, Handle(0, Choose));
    s := Apply(s, Handle(0, Choose));
  }

  /** ... up to its insertion. */
  lemma OneInserted(cfg: Config, ev: Event) returns (s: State)
    requires Matches(cfg, ev)
    ensures Reachable(s) && s.rotator == Sleeping && !s.active
    ensures s.handlers == map[0 := Handler(ev, Inserted(false), false)]
    ensures s.map0 == map[KeyOf(ev) := Slot(0.0, Counter(0, 0, 0, 0, 0))]
  {
    hide Reachable;
    s := OneChosen(cfg, ev);
    ReachNext(s, Handle(0, Lookup));
    s := Apply(s, Handle(0, Lookup));
    ReachNext(s, Handle(0, Insert(0.0)));
    s := Apply(s, Handle(0, Insert(0.0)));
  }

  /** Two turns of the rotator over empty maps. */
  lemma NothingToWalk(cfg: Config, ev: Event) returns (s: State)
    requires Matches(cfg, ev)
    ensures Reachable(s) && s.handlers == map[0 := Handler(ev, Rejected, true)] && s.rotator == Draining
    ensures s.drops == 0 && s.reported == 0 && s.forgotten == 0
  {
    hide Reachable;
    s := OneChosen(cfg, ev);
    ReachNext(s, Handle(0, Lookup));
    s := Apply(s, Handle(0, Lookup));
    ReachNext(s, Handle(0, InsertFails));
    s := Apply(s, Handle(0, InsertFails));
    s := EmptyRound(s, ev);
  }

  lemma EmptyRound(s: State, ev: Event) returns (s': State)
    requires Reachable(s) && s.rotator == Sleeping && !s.active && s.map0 == map[]
    requires s.handlers == map[0 := Handler(ev, Rejected, false)]
    ensures Reachable(s') && s'.handlers == map[0 := Handler(ev, Rejected, true)] && s'.rotator == Draining
    ensures s'.drops == s.drops && s'.reported == s.reported && s'.forgotten == s.forgotten
  {
    hide Reachable;
    ReachNext(s, Rotate(Flip));
    s' := Apply(s, Rotate(Flip));
    ReachNext(s', Rotate(FirstKey(None)));
    s' := Apply(s', Rotate(FirstKey(None)));
    ReachNext(s', Rotate(ClearFirst(None)));
    s' := Apply(s', Rotate(ClearFirst(None)));
  }

  /** A drop counted between the reading and the resetting of the counter is never reported. */
  lemma DropCanBeForgotten(cfg: Config, ev: Event)
    requires Matches(cfg, ev)
    ensures exists s :: Reachable(s) && 0 in s.handlers && s.handlers[0].fate == Dropped
                && s.rotator == Writing && s.drops == 0 && s.reported == 0
  {
    var s := NothingToWalk(cfg, ev);
    ReachNext(s, Rotate(ReadDrops));
    s := Apply(s, Rotate(ReadDrops));
    ReachNext(s, Handle(0, CountDrop));
    s := Apply(s, Handle(0, CountDrop));
    ReachNext(s, Rotate(ResetDrops));
    s := Apply(s, Rotate(ResetDrops));
    assert 0 in s.handlers && s.handlers[0].fate == Dropped && s.reported == 0;
  }

  /** A reachable state with a single handler, which has just inserted its zero cell and been straddled. */
  ghost predicate OnlyOne(s: State, ev: Event, r: Rotator) {
    && Reachable(s) && s.rotator == r
    && s.handlers == map[0 := Handler(ev, Inserted(false), true)]
    && s.map0 == map[KeyOf(ev) := Slot(0.0, Counter(0, 0, 0, 0, 0))]
  }

  /** The flip overtakes it. */
  lemma OneStraddles(cfg: Config, ev: Event) returns (s: State)
    requires Matches(cfg, ev)
    ensures OnlyOne(s, ev, Walking(false))
  {
    hide Reachable;
    s := OneInserted(cfg, ev);
    ReachNext(s, Rotate(Flip));
    s := Apply(s, Rotate(Flip));
  }

  /** One turn of the rotator that leaves the handler and the cell alone. */
  lemma OneTurns(s: State, ev: Event, turn: Turn, r: Rotator) returns (s': State)
    requires OnlyOne(s, ev, s.rotator) && CanTurn(s, turn) && AfterTurn(s, turn).rotator == r
    requires AfterTurn(s, turn).handlers == s.handlers && AfterTurn(s, turn).map0 == s.map0
    ensures OnlyOne(s', ev, r)
  {
    hide Reachable, CanTurn, AfterTurn;
    ReachNext(s, Rotate(turn));
    s' := Apply(s, Rotate(turn));
  }

  lemma OneRead(s: State, ev: Event) returns (s': State)
    requires OnlyOne(s, ev, Walking(false))
    ensures OnlyOne(s', ev, Advancing(false, KeyOf(ev)))
  {
    hide Reachable;
    s' := OneTurns(s, ev, FirstKey(Some(KeyOf(ev))), Reading(false, KeyOf(ev)));
    ZeroRead(s', ev);
    s' := OneTurns(s', ev, ReadKey, Advancing(false, KeyOf(ev)));
  }

  /** The row of the zero cell holds no event. */
  lemma ZeroRead(s: State, ev: Event)
    requires OnlyOne(s, ev, Reading(false, KeyOf(ev)))
    ensures AfterRead(s).handlers == s.handlers && AfterRead(s).map0 == s.map0
  {
    hide Reachable;
  }

  lemma OneCollected(s: State, ev: Event) returns (s': State)
    requires OnlyOne(s, ev, Advancing(false, KeyOf(ev)))
    ensures OnlyOne(s', ev, Seeking(false, KeyOf(ev)))
  {
    hide Reachable;
    s' := OneTurns(s, ev, NextKey(None), Clearing(false));
    s' := OneTurns(s', ev, ClearFirst(Some(KeyOf(ev))), Seeking(false, KeyOf(ev)));
  }

  lemma OneCleared(s: State, ev: Event) returns (s': State)
    requires OnlyOne(s, ev, Seeking(false, KeyOf(ev)))
    ensures Reachable(s') && s'.map0 == map[]
    ensures s'.handlers == map[0 := Handler(ev, Inserted(false), true)]
  {
    hide Reachable;
    s' := OneTurns(s, ev, ClearNext(None), Deleting(false, KeyOf(ev), None));
    ReachNext(s', Rotate(DeleteKey));
    s' := Apply(s', Rotate(DeleteKey));
  }

  /**
   Loss does happen: a handler that inserted its cell before a flip and looks it up again after the
   clearing walk finds nothing, and its event is neither counted nor reported as a drop.
   */
  lemma StraddlerCanLose(cfg: Config, ev: Event)
    requires Matches(cfg, ev)
    ensures exists s :: Reachable(s) && 0 in s.handlers && s.handlers[0].fate == Lost
  {
    var s := OneStraddles(cfg, ev);
    s := OneRead(s, ev);
    s := OneCollected(s, ev);
    s := OneCleared(s, ev);
    ReachNext(s, Handle(0, Relookup));
    s := Apply(s, Handle(0, Relookup));
    assert 0 in s.handlers && s.handlers[0].fate == Lost;
  }
}
