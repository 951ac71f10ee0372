/** Which events the counting protocol loses: the exact condition at the moment of the add. */
module CacheMissFates {
  import opened Options
  import opened BpfTable
  import opened CacheMissProtocol
  import opened CacheMissInvariant
  import opened CacheMissAccounting

  /**
   The rotator has already copied, or is already committed to deleting, the cell of `k` in map `m`:
   what is added to it from now on is deleted with it unread.
   */
  ghost predicate Passed(s: State, m: bool, k: Key)
    requires k in TableOf(s, m)
  {
    var t := TableOf(s, m);
    match s.rotator
    case Reading(r, cur) => r == m && cur in t && t[k].rank < t[cur].rank
    case Advancing(r, cur) => r == m && cur in t && t[k].rank <= t[cur].rank
    case Clearing(r) => r == m
    case Seeking(r, cur) => r == m && cur in t && t[k].rank >= t[cur].rank
    case Deleting(r, cur, next) =>
      r == m && (k == cur || (next.Some? && next.value in t && t[k].rank >= t[next.value].rank))
    case _ => false
  }

  /** The event is counted in the cell of `k` in map `m`. */
  ghost predicate CountedIn(s: State, id: nat, m: bool, k: Key) {
    && id in s.handlers && s.handlers[id].fate.Counted? && LivesIn(TableOf(s, m), k, s.handlers[id].fate.gen)
    && s.handlers[id].fate.gen < |s.owners| && s.owners[s.handlers[id].fate.gen] == (m, k)
  }

  /** Nothing moves the event any more. */
  ghost predicate Settled(s: State, id: nat) {
    id in s.handlers && (s.handlers[id].fate.Emitted? || s.handlers[id].fate == Lost)
  }

  lemma CountedLives(s: State, id: nat)
    requires Inv(s) && id in s.handlers && s.handlers[id].fate.Counted?
    ensures var g := s.handlers[id].fate.gen;
            && g < |s.owners| && s.owners[g].1 == KeyOf(s.handlers[id].ev)
            && CountedIn(s, id, s.owners[g].0, s.owners[g].1)
  {
    assert HandlerOk(s, s.handlers[id]);
  }

  /** What one step does to a counted event: it stays, and stays passed or not, or it ends accordingly. */
  ghost predicate Decided(s: State, s': State, id: nat, m: bool, k: Key)
    requires k in TableOf(s, m)
  {
    && id in s'.handlers
    && match s'.handlers[id].fate
       case Counted(_) => CountedIn(s', id, m, k) && Passed(s', m, k) == Passed(s, m, k)
       case Emitted(_) => !Passed(s, m, k)
       case Lost => Passed(s, m, k)
       case _ => false
  }

  lemma Stays(s: State, s': State, id: nat, m: bool, k: Key)
    requires CountedIn(s, id, m, k) && id in s'.handlers && s'.handlers[id].fate == s.handlers[id].fate
    requires s.owners <= s'.owners && k in TableOf(s', m)
    requires TableOf(s', m)[k].value.gen == TableOf(s, m)[k].value.gen && Passed(s', m, k) == Passed(s, m, k)
    ensures Decided(s, s', id, m, k)
  {
    hide Passed;
  }

  lemma CountedHas(s: State, id: nat, m: bool, k: Key)
    requires CountedIn(s, id, m, k)
    ensures id in s.handlers && s.handlers[id].fate.Counted? && k in TableOf(s, m)
  {
  }

  // ----- Handler steps leave it alone ----------------------------------------------------------------------

  /** Cells stay where they are; new ones may come. */
  ghost predicate CellsStay(t: CountTable, t': CountTable) {
    forall k | k in t :: k in t' && t'[k].rank == t[k].rank && t'[k].value.gen == t[k].value.gen
  }

  lemma ActionCells(s: State, id: nat, action: Action)
    requires CanAct(s, id, action)
    ensures CellsStay(s.map0, AfterAction(s, id, action).map0) && CellsStay(s.map1, AfterAction(s, id, action).map1)
  {
    match action {
      case Insert(rank) => InsertCells(s, s.handlers[id].fate.m, KeyOf(s.handlers[id].ev), rank);
      case Add => AddCells(s, id);
      case _ =>
    }
  }

  lemma InsertCells(s: State, m: bool, k: Key, rank: real)
    requires k !in TableOf(s, m)
    ensures CellsStay(s.map0, WithCell(s, m, k, rank).map0) && CellsStay(s.map1, WithCell(s, m, k, rank).map1)
  {
  }

  lemma AddCells(s: State, id: nat)
    requires id in s.handlers && s.handlers[id].fate.Holding?
    ensures CellsStay(s.map0, AfterAdd(s, id).map0) && CellsStay(s.map1, AfterAdd(s, id).map1)
  {
  }

  lemma ActionStays(s: State, id: nat, action: Action)
    requires CanAct(s, id, action)
    ensures var s' := AfterAction(s, id, action);
            && s'.rotator == s.rotator && s.owners <= s'.owners
            && CellsStay(s.map0, s'.map0) && CellsStay(s.map1, s'.map1)
            && forall i | i in s.handlers && i != id :: i in s'.handlers && s'.handlers[i] == s.handlers[i]
  {
    hide CellsStay;
    ActionCells(s, id, action);
  }

  lemma CountedIsDone(s: State, id: nat, action: Action, i: nat)
    requires CanAct(s, id, action) && i in s.handlers
    requires s.handlers[i].fate.Counted? || s.handlers[i].fate.Emitted? || s.handlers[i].fate == Lost
    ensures i != id
  {
  }

  lemma PassedStays(s: State, s': State, m: bool, k: Key)
    requires RotatorOk(s) && s'.rotator == s.rotator && k in TableOf(s, m)
    requires CellsStay(TableOf(s, m), TableOf(s', m))
    ensures k in TableOf(s', m) && Passed(s', m, k) == Passed(s, m, k)
  {
  }

  lemma ActionDecides(s: State, id: nat, action: Action, i: nat, m: bool, k: Key)
    requires Inv(s) && CanAct(s, id, action) && CountedIn(s, i, m, k)
    ensures Decided(s, AfterAction(s, id, action), i, m, k)
  {
    hide Inv, Passed, AfterAction, CountedIn, RotatorOk, RanksOk, TablesOk;
    CountedHas(s, i, m, k);
    ActionStays(s, id, action);
    CountedIsDone(s, id, action, i);
    RotatorIsOk(s);
    PassedStays(s, AfterAction(s, id, action), m, k);
    Stays(s, AfterAction(s, id, action), i, m, k);
  }

  lemma RotatorIsOk(s: State)
    requires Inv(s)
    ensures RotatorOk(s) && RanksOk(s) && TablesOk(s)
  {
  }

  // ----- Rotator steps decide it ---------------------------------------------------------------------------

  /** Turns that touch no table and no handler's fate. */
  predicate Quiet(turn: Turn) {
    !turn.ReadKey? && !turn.DeleteKey?
  }

  lemma QuietStays(s: State, turn: Turn)
    requires CanTurn(s, turn) && Quiet(turn)
    ensures var s' := AfterTurn(s, turn);
            && s'.map0 == s.map0 && s'.map1 == s.map1 && s'.owners == s.owners
            && forall i | i in s.handlers :: i in s'.handlers && s'.handlers[i].fate == s.handlers[i].fate
  {
  }

  lemma ReadWalkPassed(s: State, turn: Turn, m: bool, k: Key)
    requires RotatorOk(s) && RanksOk(s) && CanTurn(s, turn) && (turn.FirstKey? || turn.NextKey?) && k in TableOf(s, m)
    ensures k in TableOf(AfterTurn(s, turn), m) && Passed(AfterTurn(s, turn), m, k) == Passed(s, m, k)
  {
  }

  lemma ClearWalkPassed(s: State, turn: Turn, m: bool, k: Key)
    requires RotatorOk(s) && RanksOk(s) && CanTurn(s, turn) && (turn.ClearFirst? || turn.ClearNext?)
    requires k in TableOf(s, m)
    ensures k in TableOf(AfterTurn(s, turn), m) && Passed(AfterTurn(s, turn), m, k) == Passed(s, m, k)
  {
  }

  lemma QuietPassed(s: State, turn: Turn, m: bool, k: Key)
    requires RotatorOk(s) && RanksOk(s) && CanTurn(s, turn) && Quiet(turn) && k in TableOf(s, m)
    ensures k in TableOf(AfterTurn(s, turn), m) && Passed(AfterTurn(s, turn), m, k) == Passed(s, m, k)
  {
    match turn {
      case FirstKey(_) | NextKey(_) =>
        hide *;
        ReadWalkPassed(s, turn, m, k);
      case ClearFirst(_) | ClearNext(_) =>
        hide *;
        ClearWalkPassed(s, turn, m, k);
      case _ =>
        hide RotatorOk, RanksOk;
    }
  }

  /** A generation names one cell. */
  lemma GenNames(s: State, i: nat, m: bool, k: Key, r: bool, cur: Key)
    requires TablesOk(s) && CountedIn(s, i, m, k) && cur in TableOf(s, r)
    ensures s.handlers[i].fate.gen == TableOf(s, r)[cur].value.gen <==> m == r && k == cur
  {
  }

  lemma ReadMovesOne(s: State, i: nat)
    requires s.rotator.Reading? && s.rotator.key in TableOf(s, s.rotator.m) && i in s.handlers
    ensures var s', gen := AfterRead(s), TableOf(s, s.rotator.m)[s.rotator.key].value.gen;
            && i in s'.handlers && s'.owners == s.owners
            && s'.handlers[i].fate ==
               if s.handlers[i].fate == Counted(gen) then Emitted(|s.rows|) else s.handlers[i].fate
  {
  }

  lemma ReadCells(s: State)
    requires s.rotator.Reading?
    ensures CellsStay(s.map0, AfterRead(s).map0) && CellsStay(s.map1, AfterRead(s).map1)
    ensures AfterRead(s).map0.Keys == s.map0.Keys && AfterRead(s).map1.Keys == s.map1.Keys
  {
    hide AfterRead;
    ReadShape(s);
  }

  lemma ReadTurns(s: State)
    requires s.rotator.Reading?
    ensures AfterRead(s).rotator == Advancing(s.rotator.m, s.rotator.key)
  {
  }

  /** Reading passes the cell that is read and no other. */
  lemma ReadPasses(s: State, m: bool, k: Key)
    requires RotatorOk(s) && RanksOk(s) && s.rotator.Reading? && k in TableOf(s, m)
    ensures k in TableOf(AfterRead(s), m)
    ensures Passed(AfterRead(s), m, k) <==> Passed(s, m, k) || (m == s.rotator.m && k == s.rotator.key)
    ensures m == s.rotator.m && k == s.rotator.key ==> !Passed(s, m, k)
  {
    ReadCells(s);
    ReadTurns(s);
    hide AfterRead;
  }

  lemma ReadDecides(s: State, i: nat, m: bool, k: Key)
    requires Inv(s) && s.rotator.Reading? && CountedIn(s, i, m, k)
    ensures Decided(s, AfterRead(s), i, m, k)
  {
    RotatorIsOk(s);
    ReadingKey(s);
    CountedHas(s, i, m, k);
    GenNames(s, i, m, k, s.rotator.m, s.rotator.key);
    ReadMovesOne(s, i);
    ReadPasses(s, m, k);
    hide Inv, RotatorOk, RanksOk, TablesOk, Passed, AfterRead, CountedIn;
    if m != s.rotator.m || k != s.rotator.key {
      ReadCells(s);
      Stays(s, AfterRead(s), i, m, k);
    }
  }

  lemma ReadingKey(s: State)
    requires RotatorOk(s) && (s.rotator.Reading? || s.rotator.Deleting?)
    ensures s.rotator.key in TableOf(s, s.rotator.m)
  {
  }

  lemma DeleteMovesOne(s: State, i: nat)
    requires s.rotator.Deleting? && s.rotator.key in TableOf(s, s.rotator.m) && i in s.handlers
    ensures var s', gen := AfterDelete(s), TableOf(s, s.rotator.m)[s.rotator.key].value.gen;
            && i in s'.handlers && s'.owners == s.owners
            && s'.handlers[i].fate == if s.handlers[i].fate == Counted(gen) then Lost else s.handlers[i].fate
  {
  }

  lemma DeleteCells(s: State)
    requires s.rotator.Deleting?
    ensures var m, s' := s.rotator.m, AfterDelete(s);
            && TableOf(s', m) == TableOf(s, m) - {s.rotator.key} && TableOf(s', !m) == TableOf(s, !m)
            && s'.rotator == if s.rotator.next.Some? then Seeking(m, s.rotator.next.value) else Draining
  {
  }

  /** Deleting leaves every other cell passed or not as it was. */
  lemma DeletePasses(s: State, m: bool, k: Key)
    requires RotatorOk(s) && RanksOk(s) && s.rotator.Deleting? && k in TableOf(s, m)
    requires m != s.rotator.m || k != s.rotator.key
    ensures k in TableOf(AfterDelete(s), m) && TableOf(AfterDelete(s), m)[k] == TableOf(s, m)[k]
    ensures Passed(AfterDelete(s), m, k) == Passed(s, m, k)
  {
    DeleteCells(s);
    hide AfterDelete;
  }

  lemma DeleteDecides(s: State, i: nat, m: bool, k: Key)
    requires Inv(s) && s.rotator.Deleting? && CountedIn(s, i, m, k)
    ensures Decided(s, AfterDelete(s), i, m, k)
  {
    RotatorIsOk(s);
    ReadingKey(s);
    CountedHas(s, i, m, k);
    GenNames(s, i, m, k, s.rotator.m, s.rotator.key);
    DeleteMovesOne(s, i);
    hide Inv, RotatorOk, RanksOk, TablesOk, AfterDelete, CountedIn;
    if m != s.rotator.m || k != s.rotator.key {
      hide Passed;
      DeletePasses(s, m, k);
      Stays(s, AfterDelete(s), i, m, k);
    }
  }

  lemma TurnDecides(s: State, turn: Turn, i: nat, m: bool, k: Key)
    requires Inv(s) && CanTurn(s, turn) && CountedIn(s, i, m, k)
    ensures Decided(s, AfterTurn(s, turn), i, m, k)
  {
    match turn {
      case ReadKey =>
        hide Inv, Decided;
        ReadDecides(s, i, m, k);
      case DeleteKey =>
        hide Inv, Decided;
        DeleteDecides(s, i, m, k);
      case _ =>
        hide Inv, Decided;
        QuietDecides(s, turn, i, m, k);
    }
  }

  lemma QuietDecides(s: State, turn: Turn, i: nat, m: bool, k: Key)
    requires Inv(s) && CanTurn(s, turn) && Quiet(turn) && CountedIn(s, i, m, k)
    ensures Decided(s, AfterTurn(s, turn), i, m, k)
  {
    RotatorIsOk(s);
    CountedHas(s, i, m, k);
    QuietStays(s, turn);
    QuietPassed(s, turn, m, k);
    hide Inv, Passed, AfterTurn, CanTurn, RotatorOk, RanksOk, TablesOk, CountedIn;
    Stays(s, AfterTurn(s, turn), i, m, k);
  }

  lemma StepDecides(s: State, step: Step, i: nat, m: bool, k: Key)
    requires Inv(s) && Enabled(s, step) && CountedIn(s, i, m, k)
    ensures Decided(s, Apply(s, step), i, m, k)
  {
    match step {
      case Handle(id, action) => ActionDecides(s, id, action, i, m, k);
      case Rotate(turn) => TurnDecides(s, turn, i, m, k);
    }
  }

  lemma TurnSettles(s: State, turn: Turn, id: nat)
    requires CanTurn(s, turn) && Settled(s, id)
    ensures Settled(AfterTurn(s, turn), id) && AfterTurn(s, turn).handlers[id].fate == s.handlers[id].fate
  {
    if Quiet(turn) {
      QuietStays(s, turn);
      hide CanTurn, AfterTurn;
    } else if s.rotator.key in TableOf(s, s.rotator.m) {
      hide AfterRead, AfterDelete;
      if turn.ReadKey? {
        ReadMovesOne(s, id);
      } else {
        DeleteMovesOne(s, id);
      }
    }
  }

  lemma SettledStays(s: State, step: Step, id: nat)
    requires Enabled(s, step) && Settled(s, id)
    ensures Settled(Apply(s, step), id) && Apply(s, step).handlers[id].fate == s.handlers[id].fate
  {
    match step {
      case Handle(i, action) =>
        hide AfterAction;
        CountedIsDone(s, i, action, id);
        ActionStays(s, i, action);
      case Rotate(turn) =>
        TurnSettles(s, turn, id);
    }
  }

  lemma {:induction false} SettledForever(s: State, steps: seq<Step>, s': State, id: nat)
    requires Run(s, steps, s') && Settled(s, id)
    ensures Settled(s', id) && s'.handlers[id].fate == s.handlers[id].fate
    decreases |steps|
  {
    if steps == [] {
    } else {
      SettledStays(s, steps[0], id);
      SettledForever(Apply(s, steps[0]), steps[1..], s', id);
    }
  }

  lemma {:induction false} RunDecides(s: State, steps: seq<Step>, s': State, id: nat, m: bool, k: Key)
    requires Inv(s) && CountedIn(s, id, m, k) && Run(s, steps, s') && Settled(s', id)
    ensures s'.handlers[id].fate == Lost <==> Passed(s, m, k)
    decreases |steps|
  {
    if steps == [] {
    } else {
      var s1 := Apply(s, steps[0]);
      StepDecides(s, steps[0], id, m, k);
      hide Inv, Passed, Apply;
      if s1.handlers[id].fate.Counted? {
        StepKeeps(s, steps[0]);
        RunDecides(s1, steps[1..], s', id, m, k);
      } else {
        SettledForever(s1, steps[1..], s', id);
      }
    }
  }

  // ----- Main results --------------------------------------------------------------------------------------

  /**
   A counted event that is settled in the end is lost if and only if the rotator has already passed
   its cell; otherwise it is emitted.  Nothing that happens later changes that.
   */
  lemma CountedLostIff(s: State, id: nat, steps: seq<Step>, s': State)
    requires Reachable(s) && id in s.handlers && s.handlers[id].fate.Counted?
    requires Run(s, steps, s') && Settled(s', id)
    ensures var g := s.handlers[id].fate.gen;
            && g < |s.owners| && s.owners[g].1 in TableOf(s, s.owners[g].0)
            && (s'.handlers[id].fate == Lost <==> Passed(s, s.owners[g].0, s.owners[g].1))
  {
    ReachableInv(s);
    CountedLives(s, id);
    var (m, k) := s.owners[s.handlers[id].fate.gen];
    RunDecides(s, steps, s', id, m, k);
  }

  /**
   The moment of the add decides: the event is lost if and only if its cell is gone by then, or the
   rotator has already passed it.
   */
  lemma AddLostIff(s: State, id: nat, steps: seq<Step>, s': State)
    requires Reachable(s) && id in s.handlers && s.handlers[id].fate.Holding?
    requires Run(Apply(s, Handle(id, Add)), steps, s') && Settled(s', id)
    ensures var h := s.handlers[id];
            s'.handlers[id].fate == Lost <==>
            !LivesIn(TableOf(s, h.fate.m), KeyOf(h.ev), h.fate.gen) || Passed(s, h.fate.m, KeyOf(h.ev))
  {
    var h, s1 := s.handlers[id], Apply(s, Handle(id, Add));
    var m, k := h.fate.m, KeyOf(h.ev);
    ReachableInv(s);
    assert HandlerOk(s, h);
    StepKeeps(s, Handle(id, Add));
    if LivesIn(TableOf(s, m), k, h.fate.gen) {
      AddStays(s, id);
      RotatorIsOk(s);
      PassedStays(s, s1, m, k);
      hide Inv, Passed, Apply;
      RunDecides(s1, steps, s', id, m, k);
    } else {
      SettledForever(s1, steps, s', id);
    }
  }

  lemma AddStays(s: State, id: nat)
    requires id in s.handlers && s.handlers[id].fate.Holding?
    requires var h := s.handlers[id];
             && LivesIn(TableOf(s, h.fate.m), KeyOf(h.ev), h.fate.gen)
             && h.fate.gen < |s.owners| && s.owners[h.fate.gen] == (h.fate.m, KeyOf(h.ev))
    ensures var h, s' := s.handlers[id], Apply(s, Handle(id, Add));
            && s'.rotator == s.rotator && CellsStay(TableOf(s, h.fate.m), TableOf(s', h.fate.m))
            && CountedIn(s', id, h.fate.m, KeyOf(h.ev))
  {
  }

  /** The only other way to lose: the second lookup finds no cell. */
  lemma RelookupLostIff(s: State, id: nat)
    requires id in s.handlers && s.handlers[id].fate.Inserted?
    ensures var h, after := s.handlers[id], Apply(s, Handle(id, Relookup)).handlers[id].fate;
            && (after == Lost <==> KeyOf(h.ev) !in TableOf(s, h.fate.m))
            && (after == Lost || after.Holding?)
  {
  }

  /** A handler that no flip has overtaken adds to a live cell that the rotator has not passed. */
  lemma NotPassedUnlessStraddled(s: State, id: nat)
    requires Reachable(s) && id in s.handlers && s.handlers[id].fate.Holding? && !s.handlers[id].straddled
    ensures var h := s.handlers[id];
            LivesIn(TableOf(s, h.fate.m), KeyOf(h.ev), h.fate.gen) && !Passed(s, h.fate.m, KeyOf(h.ev))
  {
    ReachableInv(s);
    assert HandlerOk(s, s.handlers[id]);
  }

  /** The straddler of the losing run, had it been quicker: it holds the cell before the walk begins. */
  lemma OneHolds(cfg: Config, ev: Event) returns (s: State)
    requires Matches(cfg, ev)
    ensures Reachable(s) && s.rotator == Walking(false)
    ensures s.handlers == map[0 := Handler(ev, Holding(false, 0), true)]
    ensures s.map0 == map[KeyOf(ev) := Slot(0.0, Counter(0, 0, 0, 0, 0))]
  {
    hide Reachable;
    s := OneStraddles(cfg, ev);
    ReachNext(s, Handle(0, Relookup));
    s := Apply(s, Handle(0, Relookup));
  }

  lemma OneAdds(cfg: Config, ev: Event) returns (s: State)
    requires Matches(cfg, ev)
    ensures Reachable(s) && s.rotator == Walking(false)
    ensures s.handlers == map[0 := Handler(ev, Counted(0), true)]
    ensures s.map0 == map[KeyOf(ev) := Slot(0.0, Bump(Counter(0, 0, 0, 0, 0), ev.l1i))]
  {
    hide Reachable;
    s := OneHolds(cfg, ev);
    ReachNext(s, Handle(0, Add));
    s := Apply(s, Handle(0, Add));
  }

  lemma OneIsRead(s: State, k: Key, c: Counter) returns (s': State)
    requires Reachable(s) && s.rotator == Walking(false) && s.map0 == map[k := Slot(0.0, c)]
    ensures Reachable(s') && s'.rotator == Reading(false, k) && s'.map0 == s.map0 && s'.handlers == s.handlers
  {
    hide Reachable;
    ReachNext(s, Rotate(FirstKey(Some(k))));
    s' := Apply(s, Rotate(FirstKey(Some(k))));
  }

  /** A straddler need not lose: one that adds before its cell is passed is emitted. */
  lemma StraddlerCanKeep(cfg: Config, ev: Event)
    requires Matches(cfg, ev)
    ensures exists s :: Reachable(s) && 0 in s.handlers && s.handlers[0].straddled && s.handlers[0].fate.Emitted?
  {
    hide Reachable;
    var s := OneAdds(cfg, ev);
    s := OneIsRead(s, KeyOf(ev), Bump(Counter(0, 0, 0, 0, 0), ev.l1i));
    ReachNext(s, Rotate(ReadKey));
    ReadMovesOne(s, 0);
    s := Apply(s, Rotate(ReadKey));
    assert s.handlers[0].straddled && s.handlers[0].fate.Emitted?;
  }
}
