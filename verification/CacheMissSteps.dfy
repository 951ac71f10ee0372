/** The steps of the counting protocol one by one, in terms of the event's own fields. */
module CacheMissSteps {
  import opened Options
  import opened BpfTable
  import opened CacheMissProtocol

  /** A handler is marked exactly when a flip comes while it is busy with the map it chose. */
  lemma StraddledIff(s: State, step: Step, id: nat)
    requires Enabled(s, step) && id in Apply(s, step).handlers
    ensures Apply(s, step).handlers[id].straddled <==>
            && id in s.handlers
            && (s.handlers[id].straddled
                || (step == Rotate(Flip)
                    && var f := s.handlers[id].fate;
                       f.Looking? || f.Absent? || f.Rejected? || f.Inserted? || f.Holding?))
  {
    match step {
      case Handle(_, action) => ActionMarks(s, step.id, action, id);
      case Rotate(turn) => TurnMarks(s, turn, id);
    }
  }

  lemma ActionMarks(s: State, id: nat, action: Action, other: nat)
    requires CanAct(s, id, action) && other in AfterAction(s, id, action).handlers
    ensures AfterAction(s, id, action).handlers[other].straddled <==>
            other in s.handlers && s.handlers[other].straddled
  {
    var s' := AfterAction(s, id, action);
    if other != id {
      assert other in s.handlers && s'.handlers[other] == s.handlers[other];
    } else if action.Enter? {
      assert !s'.handlers[id].straddled;
    } else {
      assert s'.handlers[id].straddled == s.handlers[id].straddled;
    }
  }

  lemma TurnMarks(s: State, turn: Turn, id: nat)
    requires CanTurn(s, turn) && id in AfterTurn(s, turn).handlers
    ensures AfterTurn(s, turn).handlers[id].straddled <==>
            && id in s.handlers
            && (s.handlers[id].straddled
                || (turn == Flip
                    && var f := s.handlers[id].fate;
                       f.Looking? || f.Absent? || f.Rejected? || f.Inserted? || f.Holding?))
  {
    hide IsNextKey;
  }

  /** A handler reads which map is active, and keeps to that map and to the key of its own event. */
  lemma LookupsMean(s: State, id: nat)
    requires id in s.handlers
    ensures var h := s.handlers[id];
            var k := Key(h.ev.tgid, h.ev.pid, h.ev.cpu);
            && (h.fate == Entered ==> AfterAction(s, id, Choose).handlers[id].fate == Looking(s.active))
            && (forall m | h.fate == Looking(m) ::
                  var t := if m then s.map1 else s.map0;
                  AfterAction(s, id, Lookup).handlers[id].fate
                    == if k in t then Holding(m, t[k].value.gen) else Absent(m))
            && (forall m | h.fate == Inserted(m) ::
                  var t := if m then s.map1 else s.map0;
                  AfterAction(s, id, Relookup).handlers[id].fate
                    == if k in t then Holding(m, t[k].value.gen) else Lost)
  {
  }

  /** An insertion needs an absent key and room for it ... */
  lemma InsertIff(s: State, id: nat, rank: real)
    requires id in s.handlers && s.handlers[id].fate.Absent?
    ensures var h := s.handlers[id];
            var t, k := if h.fate.m then s.map1 else s.map0, Key(h.ev.tgid, h.ev.pid, h.ev.cpu);
            CanAct(s, id, Insert(rank)) <==> k !in t && |t| < 65535 && forall j | j in t :: t[j].rank != rank
  {
  }

  /** ... and puts in a cell that counts nothing yet. */
  lemma InsertMeans(s: State, id: nat, rank: real)
    requires CanAct(s, id, Insert(rank))
    ensures var h, s' := s.handlers[id], AfterAction(s, id, Insert(rank));
            var k := Key(h.ev.tgid, h.ev.pid, h.ev.cpu);
            var t, t' := if h.fate.m then s.map1 else s.map0, if h.fate.m then s'.map1 else s'.map0;
            && s'.handlers[id].fate == Inserted(h.fate.m)
            && t' == t[k := Slot(rank, Counter(|s.owners|, 0, 0, 0, 0))]
            && (if h.fate.m then s'.map0 == s.map0 else s'.map1 == s.map1)
  {
    var h := s.handlers[id];
    InsertApplies(s, id, rank);
    hide AfterAction, CanAct;
    CellMeans(s, h.fate.m, Key(h.ev.tgid, h.ev.pid, h.ev.cpu), rank);
  }

  lemma InsertApplies(s: State, id: nat, rank: real)
    requires CanAct(s, id, Insert(rank))
    ensures id in s.handlers && s.handlers[id].fate.Absent?
    ensures var h := s.handlers[id];
            var s' := WithCell(s, h.fate.m, KeyOf(h.ev), rank);
            id in s'.handlers && AfterAction(s, id, Insert(rank)) == SetFate(s', id, Inserted(h.fate.m))
  {
  }

  lemma CellMeans(s: State, m: bool, k: Key, rank: real)
    ensures var s' := WithCell(s, m, k, rank);
            var t, t' := if m then s.map1 else s.map0, if m then s'.map1 else s'.map0;
            && t' == t[k := Slot(rank, Counter(|s.owners|, 0, 0, 0, 0))]
            && (if m then s'.map0 == s.map0 else s'.map1 == s.map1)
  {
  }

  /** The addition through a live pointer raises the counter of the event's kind by one, and no other. */
  lemma AddMeans(s: State, id: nat)
    requires id in s.handlers && s.handlers[id].fate.Holding?
    ensures var h, s' := s.handlers[id], AfterAction(s, id, Add);
            var k := Key(h.ev.tgid, h.ev.pid, h.ev.cpu);
            var t, t' := if h.fate.m then s.map1 else s.map0, if h.fate.m then s'.map1 else s'.map0;
            if k in t && t[k].value.gen == h.fate.gen then
              && s'.handlers[id].fate == Counted(h.fate.gen) && t'.Keys == t.Keys
              && t'[k].value.l1i == t[k].value.l1i + (if h.ev.l1i then 1 else 0)
              && t'[k].value.llc == t[k].value.llc + (if h.ev.l1i then 0 else 1)
              && forall j | j in t && j != k :: t'[j] == t[j]
            else s'.handlers[id].fate == Lost && t' == t
  {
  }

  /** A flip retires the active map and sends the rotator to it; a failed one, or an exit, stops it. */
  lemma FlipMeans(s: State)
    requires s.rotator == Sleeping
    ensures AfterTurn(s, Flip).active == !s.active && AfterTurn(s, Flip).rotator == Walking(s.active)
    ensures AfterTurn(s, FlipFails) == s.(rotator := Stopped) && AfterTurn(s, Exit) == s.(rotator := Stopped)
  {
  }

  /** Reading a key that is there appends a row with both its counts; one that is gone gives no row. */
  lemma ReadMeans(s: State)
    requires s.rotator.Reading?
    ensures var m, k, s' := s.rotator.m, s.rotator.key, AfterTurn(s, ReadKey);
            var t := if m then s.map1 else s.map0;
            && s'.rotator == Advancing(m, k)
            && s'.rows == (if k in t then s.rows + [Row(k, t[k].value.l1i, t[k].value.llc)] else s.rows)
  {
  }

  /** Deleting takes that one key out of the map, after the next one was asked for. */
  lemma DeleteMeans(s: State)
    requires s.rotator.Deleting?
    ensures var s' := AfterTurn(s, DeleteKey);
            && (if s.rotator.m then s'.map1 else s'.map0) == (if s.rotator.m then s.map1 else s.map0) - {s.rotator.key}
            && (if s.rotator.m then s'.map0 == s.map0 else s'.map1 == s.map1)
            && s'.rotator == match s.rotator.next case None => Draining case Some(k) => Seeking(s.rotator.m, k)
  {
    var t := if s.rotator.m then s.map1 else s.map0;
    assert s.rotator.key !in t ==> t - {s.rotator.key} == t;
  }

  /** The drops are read and then set to zero: those counted in between are forgotten. */
  lemma DrainMeans(s: State)
    ensures s.rotator == Draining ==>
              AfterTurn(s, ReadDrops) == s.(rotator := Resetting(s.drops), reported := s.reported + s.drops)
    ensures s.rotator.Resetting? && s.rotator.seen <= s.drops ==>
              var s' := AfterTurn(s, ResetDrops);
              && s'.drops == 0 && s'.forgotten == s.forgotten + s.drops - s.rotator.seen
              && s'.reported == s.reported && s'.rotator == Writing
    ensures s.rotator == Writing ==> AfterTurn(s, WriteRows) == s.(rotator := Sleeping, written := |s.rows|)
  {
  }

  /** The maps never hold more entries than they were made for. */
  lemma {:induction false} RunKeepsCapacity(s: State, steps: seq<Step>, s': State)
    requires Run(s, steps, s') && |s.map0| <= 65535 && |s.map1| <= 65535
    ensures |s'.map0| <= 65535 && |s'.map1| <= 65535
    decreases |steps|
  {
    if steps != [] {
      StepKeepsCapacity(s, steps[0]);
      RunKeepsCapacity(Apply(s, steps[0]), steps[1..], s');
    }
  }

  lemma StepKeepsCapacity(s: State, step: Step)
    requires Enabled(s, step) && |s.map0| <= 65535 && |s.map1| <= 65535
    ensures |Apply(s, step).map0| <= 65535 && |Apply(s, step).map1| <= 65535
  {
    match step {
      case Handle(id, action) =>
        ActionKeepsCapacity(s, id, action);
      case Rotate(turn) => TurnKeepsCapacity(s, turn);
    }
  }

  lemma SizeOfKeys(t: CountTable)
    ensures |t| == |t.Keys|
  {
  }

  lemma ActionKeepsCapacity(s: State, id: nat, action: Action)
    requires CanAct(s, id, action) && |s.map0| <= 65535 && |s.map1| <= 65535
    ensures |AfterAction(s, id, action).map0| <= 65535 && |AfterAction(s, id, action).map1| <= 65535
  {
    var s' := AfterAction(s, id, action);
    SizeOfKeys(s.map0);
    SizeOfKeys(s.map1);
    SizeOfKeys(s'.map0);
    SizeOfKeys(s'.map1);
    match action {
      case Insert(rank) =>
        InsertIff(s, id, rank);
        InsertMeans(s, id, rank);
      case Add => AddMeans(s, id);
      case _ =>
    }
  }

  lemma TurnKeepsCapacity(s: State, turn: Turn)
    requires CanTurn(s, turn) && |s.map0| <= 65535 && |s.map1| <= 65535
    ensures |AfterTurn(s, turn).map0| <= 65535 && |AfterTurn(s, turn).map1| <= 65535
  {
    hide IsNextKey;
    var s' := AfterTurn(s, turn);
    SizeOfKeys(s.map0);
    SizeOfKeys(s.map1);
    SizeOfKeys(s'.map0);
    SizeOfKeys(s'.map1);
    assert s'.map0.Keys <= s.map0.Keys && s'.map1.Keys <= s.map1.Keys;
    Smaller(s'.map0.Keys, s.map0.Keys);
    Smaller(s'.map1.Keys, s.map1.Keys);
  }

  lemma Smaller<T>(a: set<T>, b: set<T>)
    requires a <= b
    ensures |a| <= |b|
  {
    assert b == a + (b - a);
  }

  lemma CapacityKept(s: State)
    requires Reachable(s)
    ensures |s.map0| <= 65535 && |s.map1| <= 65535
  {
    var cfg, steps :| Run(Initial(cfg), steps, s);
    RunKeepsCapacity(Initial(cfg), steps, s);
  }
}
