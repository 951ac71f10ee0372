/** The invariant of the counting protocol, and the proof that every step keeps it. */
module CacheMissInvariant {
  import opened Options
  import opened BpfTable
  import opened CacheMissProtocol

  // ----- Counting events ------------------------------------------------------------------

  /** The events of one kind whose handler is at fate `f`. */
  ghost function At(hs: map<nat, Handler>, f: Fate, l1i: bool): set<nat> {
    set id | id in hs && hs[id].fate == f && hs[id].ev.l1i == l1i
  }

  function CountOf(c: Counter, l1i: bool): nat {
    if l1i then c.l1i else c.llc
  }

  function TakenOf(c: Counter, l1i: bool): nat {
    if l1i then c.takenL1i else c.takenLlc
  }

  function RowCount(r: Row, l1i: bool): nat {
    if l1i then r.l1i else r.llc
  }

  // ----- The invariant --------------------------------------------------------------------

  /** Every cell is the incarnation made for its map and key. */
  ghost predicate TablesOk(s: State) {
    && (forall k | k in s.map0 :: s.map0[k].value.gen < |s.owners| && s.owners[s.map0[k].value.gen] == (false, k))
    && (forall k | k in s.map1 :: s.map1[k].value.gen < |s.owners| && s.owners[s.map1[k].value.gen] == (true, k))
  }

  ghost predicate RanksOk(s: State) {
    DistinctRanks(s.map0) && DistinctRanks(s.map1)
  }

  /** The cell with this generation holds this key's counts. */
  predicate LivesIn(t: CountTable, k: Key, gen: nat) {
    k in t && t[k].value.gen == gen
  }

  ghost predicate HandlerOk(s: State, h: Handler) {
    && (h.fate.Skipped? <==> !Matches(s.cfg, h.ev))
    && (h.fate.Entered? ==> !h.straddled)
    && match h.fate
       case Looking(m) => h.straddled || m == s.active
       case Absent(m) => h.straddled || m == s.active
       case Inserted(m) => h.straddled || (m == s.active && KeyOf(h.ev) in TableOf(s, m))
       case Holding(m, g) =>
         && g < |s.owners| && s.owners[g] == (m, KeyOf(h.ev))
         && (h.straddled || (m == s.active && LivesIn(TableOf(s, m), KeyOf(h.ev), g)))
       case Counted(g) =>
         g < |s.owners| && s.owners[g].1 == KeyOf(h.ev) && LivesIn(TableOf(s, s.owners[g].0), KeyOf(h.ev), g)
       case Emitted(r) => r < |s.rows| && s.rows[r].key == KeyOf(h.ev)
       case Lost => h.straddled
       case _ => true
  }

  ghost predicate HandlersOk(s: State) {
    forall id | id in s.handlers :: HandlerOk(s, s.handlers[id])
  }

  /** A cell's counter is what was already copied out of it plus its waiting events. */
  ghost predicate CellOk(hs: map<nat, Handler>, c: Counter) {
    forall l1i :: CountOf(c, l1i) == TakenOf(c, l1i) + |At(hs, Counted(c.gen), l1i)|
  }

  ghost predicate CountersOk(s: State) {
    && (forall k | k in s.map0 :: CellOk(s.handlers, s.map0[k].value))
    && (forall k | k in s.map1 :: CellOk(s.handlers, s.map1[k].value))
  }

  ghost predicate RowOk(hs: map<nat, Handler>, row: Row, i: nat) {
    forall l1i :: RowCount(row, l1i) == |At(hs, Emitted(i), l1i)|
  }

  ghost predicate RowsOk(s: State) {
    && s.written <= |s.rows|
    && (s.rotator == Sleeping || s.rotator == Stopped ==> s.written == |s.rows|)
    && forall i | 0 <= i < |s.rows| :: RowOk(s.handlers, s.rows[i], i)
  }

  predicate Fresh(c: Counter) {
    c.takenL1i == 0 && c.takenLlc == 0
  }

  /** Only straddlers still wait in this cell. */
  ghost predicate OnlyStraddlers(hs: map<nat, Handler>, gen: nat) {
    forall id | id in hs && hs[id].fate == Counted(gen) :: hs[id].straddled
  }

  ghost predicate AllFresh(t: CountTable) {
    forall k | k in t :: Fresh(t[k].value)
  }

  ghost predicate AllStraddlers(s: State, t: CountTable) {
    forall k | k in t :: OnlyStraddlers(s.handlers, t[k].value.gen)
  }

  ghost predicate RotatorOk(s: State) {
    match s.rotator
    case Walking(m) => m != s.active && AllFresh(s.map0) && AllFresh(s.map1)
    case Reading(m, cur) =>
      var t := TableOf(s, m);
      && m != s.active && AllFresh(TableOf(s, !m)) && cur in t
      && forall k | k in t ::
           if t[k].rank < t[cur].rank then OnlyStraddlers(s.handlers, t[k].value.gen) else Fresh(t[k].value)
    case Advancing(m, cur) =>
      var t := TableOf(s, m);
      && m != s.active && AllFresh(TableOf(s, !m)) && cur in t
      && forall k | k in t ::
           if t[k].rank <= t[cur].rank then OnlyStraddlers(s.handlers, t[k].value.gen) else Fresh(t[k].value)
    case Clearing(m) =>
      m != s.active && AllFresh(TableOf(s, !m)) && AllStraddlers(s, TableOf(s, m))
    case Seeking(m, cur) =>
      var t := TableOf(s, m);
      && m != s.active && AllFresh(TableOf(s, !m)) && AllStraddlers(s, t) && cur in t
      && forall k | k in t && t[k].rank < t[cur].rank :: Fresh(t[k].value)
    case Deleting(m, cur, next) =>
      var t := TableOf(s, m);
      && m != s.active && AllFresh(TableOf(s, !m)) && AllStraddlers(s, t) && cur in t
      && (next.Some? ==> next.value in t && t[cur].rank < t[next.value].rank)
      && forall k | k in t && k != cur && (next.Some? ==> t[k].rank < t[next.value].rank) :: Fresh(t[k].value)
    case _ => AllFresh(s.map0) && AllFresh(s.map1) && AllStraddlers(s, TableOf(s, !s.active))
  }

  ghost predicate DropsOk(s: State) {
    && (s.rotator.Resetting? ==> s.rotator.seen <= s.drops)
    && |At(s.handlers, Dropped, true)| + |At(s.handlers, Dropped, false)|
       == s.reported + s.forgotten + s.drops - (if s.rotator.Resetting? then s.rotator.seen else 0)
  }

  ghost predicate Inv(s: State) {
    TablesOk(s) && RanksOk(s) && HandlersOk(s) && CountersOk(s) && RowsOk(s) && RotatorOk(s) && DropsOk(s)
  }

  // ----- Every step keeps it --------------------------------------------------------------

  /** Moving one handler changes the head count of its old and its new fate only. */
  lemma MovedOne(hs: map<nat, Handler>, id: nat, h': Handler)
    requires id in hs && h'.ev == hs[id].ev && h'.fate != hs[id].fate
    ensures At(hs[id := h'], h'.fate, h'.ev.l1i) == At(hs, h'.fate, h'.ev.l1i) + {id}
    ensures At(hs[id := h'], hs[id].fate, h'.ev.l1i) == At(hs, hs[id].fate, h'.ev.l1i) - {id}
    ensures forall f, l1i | (f != h'.fate && f != hs[id].fate) || l1i != h'.ev.l1i ::
              At(hs[id := h'], f, l1i) == At(hs, f, l1i)
  {
  }

  /** Resettling moves a whole head count. */
  lemma MovedAll(hs: map<nat, Handler>, from: Fate, to: Fate)
    requires from != to
    ensures forall f, l1i | f != from && f != to :: At(Resettle(hs, from, to), f, l1i) == At(hs, f, l1i)
  {
  }

  lemma MovedAllHere(hs: map<nat, Handler>, from: Fate, to: Fate, l1i: bool)
    requires from != to
    requires forall id | id in hs :: hs[id].fate != to
    ensures At(Resettle(hs, from, to), to, l1i) == At(hs, from, l1i)
    ensures At(Resettle(hs, from, to), from, l1i) == {}
  {
  }

  lemma FlipKeepsCounts(hs: map<nat, Handler>)
    ensures forall f, l1i :: At(MarkStraddlers(hs), f, l1i) == At(hs, f, l1i)
  {
  }

  /** Nobody joins or leaves a cell or a row. */
  ghost predicate SameCounts(hs: map<nat, Handler>, hs': map<nat, Handler>) {
    forall f: Fate, l1i | f.Counted? || f.Emitted? :: At(hs', f, l1i) == At(hs, f, l1i)
  }

  /** Whoever waits in a cell was already waiting there, or has straddled. */
  ghost predicate SameWaiting(hs: map<nat, Handler>, hs': map<nat, Handler>) {
    forall id | id in hs' && hs'[id].fate.Counted? && !hs'[id].straddled ::
      id in hs && hs[id].fate == hs'[id].fate && !hs[id].straddled
  }

  /** The step leaves the tables, the rows and the rotator alone. */
  ghost predicate SameMemory(s: State, s': State) {
    && s'.map0 == s.map0 && s'.map1 == s.map1 && s'.rows == s.rows && s'.written == s.written
    && s'.rotator == s.rotator && s'.active == s.active
  }

  lemma CountsCarry(s: State, s': State)
    requires SameMemory(s, s') && SameCounts(s.handlers, s'.handlers)
    requires CountersOk(s) && RowsOk(s)
    ensures CountersOk(s') && RowsOk(s')
  {
  }

  lemma RotatorCarries(s: State, s': State)
    requires SameMemory(s, s') && SameWaiting(s.handlers, s'.handlers)
    requires RotatorOk(s)
    ensures RotatorOk(s')
  {
    WaitingCarries(s.handlers, s'.handlers);
    hide OnlyStraddlers, SameWaiting;
  }

  lemma WaitingCarries(hs: map<nat, Handler>, hs': map<nat, Handler>)
    requires SameWaiting(hs, hs')
    ensures forall gen :: OnlyStraddlers(hs, gen) ==> OnlyStraddlers(hs', gen)
  {
  }

  predicate Weightless(f: Fate) {
    !f.Counted? && !f.Emitted? && !f.Dropped?
  }

  lemma QuietMoveCounts(hs: map<nat, Handler>, id: nat, f: Fate)
    requires id in hs && Weightless(hs[id].fate) && Weightless(f) && f != hs[id].fate
    ensures var hs' := hs[id := hs[id].(fate := f)];
            && SameCounts(hs, hs') && SameWaiting(hs, hs')
            && forall l1i :: At(hs', Dropped, l1i) == At(hs, Dropped, l1i)
  {
    MovedOne(hs, id, hs[id].(fate := f));
  }

  lemma HandlersCarry(s: State, s': State, id: nat)
    requires SameMemory(s, s') && s'.owners == s.owners && s'.cfg == s.cfg
    requires TablesOk(s) && RanksOk(s) && HandlersOk(s)
    requires id in s'.handlers && s'.handlers == s.handlers[id := s'.handlers[id]] && HandlerOk(s, s'.handlers[id])
    ensures TablesOk(s') && RanksOk(s') && HandlersOk(s')
  {
  }

  /** A handler move that touches no counter. */
  lemma QuietMove(s: State, id: nat, f: Fate)
    requires Inv(s) && id in s.handlers
    requires Weightless(s.handlers[id].fate) && Weightless(f) && f != s.handlers[id].fate
    requires HandlerOk(s, s.handlers[id].(fate := f))
    ensures Inv(SetFate(s, id, f))
  {
    var s' := SetFate(s, id, f);
    QuietMoveCounts(s.handlers, id, f);
    HandlersCarry(s, s', id);
    CountsCarry(s, s');
    RotatorCarries(s, s');
  }

  lemma MovesKeep(s: State, id: nat, action: Action)
    requires Inv(s) && CanAct(s, id, action)
    requires action.Choose? || action.Lookup? || action.InsertFails? || action.Relookup?
    ensures Inv(AfterAction(s, id, action))
  {
    QuietMove(s, id, AfterAction(s, id, action).handlers[id].fate);
  }

  lemma EnterCounts(hs: map<nat, Handler>, id: nat, h: Handler)
    requires id !in hs && Weightless(h.fate)
    ensures SameCounts(hs, hs[id := h]) && SameWaiting(hs, hs[id := h])
    ensures forall l1i :: At(hs[id := h], Dropped, l1i) == At(hs, Dropped, l1i)
  {
    forall f, l1i | !Weightless(f)
      ensures At(hs[id := h], f, l1i) == At(hs, f, l1i)
    {
    }
  }

  lemma EnterKeeps(s: State, id: nat, ev: Event)
    requires Inv(s) && id !in s.handlers
    ensures Inv(AfterAction(s, id, Enter(ev)))
  {
    var s' := AfterAction(s, id, Enter(ev));
    EnterCounts(s.handlers, id, s'.handlers[id]);
    CountsCarry(s, s');
    RotatorCarries(s, s');
    HandlersCarry(s, s', id);
  }

  lemma CountDropCounts(hs: map<nat, Handler>, id: nat)
    requires id in hs && hs[id].fate == Rejected
    ensures var hs' := hs[id := hs[id].(fate := Dropped)];
            && SameCounts(hs, hs') && SameWaiting(hs, hs')
            && |At(hs', Dropped, true)| + |At(hs', Dropped, false)|
                == |At(hs, Dropped, true)| + |At(hs, Dropped, false)| + 1
  {
    var hs' := hs[id := hs[id].(fate := Dropped)];
    MovedOne(hs, id, hs'[id]);
    var l1i := hs[id].ev.l1i;
    assert id !in At(hs, Dropped, l1i);
    assert |At(hs', Dropped, l1i)| == |At(hs, Dropped, l1i)| + 1;
    assert At(hs', Dropped, !l1i) == At(hs, Dropped, !l1i);
  }

  lemma CountDropKeeps(s: State, id: nat)
    requires Inv(s) && CanAct(s, id, CountDrop)
    ensures Inv(AfterAction(s, id, CountDrop))
  {
    var s' := AfterAction(s, id, CountDrop);
    CountDropCounts(s.handlers, id);
    HandlersCarry(s, s', id);
    CountsCarry(s, s');
    RotatorCarries(s, s');
  }

  lemma WithCellTables(s: State, m: bool, k: Key, rank: real)
    requires TablesOk(s) && RanksOk(s) && k !in TableOf(s, m)
    requires forall k' | k' in TableOf(s, m) :: TableOf(s, m)[k'].rank != rank
    ensures TablesOk(WithCell(s, m, k, rank)) && RanksOk(WithCell(s, m, k, rank))
  {
    WithCellRanks(s, m, k, rank);
    hide RanksOk;
  }

  lemma WithCellRanks(s: State, m: bool, k: Key, rank: real)
    requires RanksOk(s) && k !in TableOf(s, m)
    requires forall k' | k' in TableOf(s, m) :: TableOf(s, m)[k'].rank != rank
    ensures RanksOk(WithCell(s, m, k, rank))
  {
  }

  lemma WithCellHandlers(s: State, m: bool, k: Key, rank: real)
    requires HandlersOk(s) && k !in TableOf(s, m)
    ensures HandlersOk(WithCell(s, m, k, rank))
  {
  }

  lemma NewCellIsEmpty(s: State)
    requires HandlersOk(s)
    ensures OnlyStraddlers(s.handlers, |s.owners|)
    ensures forall l1i :: At(s.handlers, Counted(|s.owners|), l1i) == {}
  {
  }

  /** The table gained one fresh cell in which only straddlers wait. */
  ghost predicate GainedFresh(hs: map<nat, Handler>, t: CountTable, t': CountTable, k: Key) {
    && k !in t && k in t' && t' == t[k := t'[k]]
    && Fresh(t'[k].value) && OnlyStraddlers(hs, t'[k].value.gen)
  }

  lemma GainCarries(s: State, s': State, m: bool, k: Key)
    requires RotatorOk(s) && s'.rotator == s.rotator && s'.active == s.active && s'.handlers == s.handlers
    requires GainedFresh(s.handlers, TableOf(s, m), TableOf(s', m), k) && TableOf(s', !m) == TableOf(s, !m)
    ensures RotatorOk(s')
  {
  }

  lemma WithCellRotator(s: State, m: bool, k: Key, rank: real)
    requires OnlyStraddlers(s.handlers, |s.owners|) && RotatorOk(s) && k !in TableOf(s, m)
    ensures RotatorOk(WithCell(s, m, k, rank))
  {
    GainCarries(s, WithCell(s, m, k, rank), m, k);
  }

  lemma WithCellCounters(s: State, m: bool, k: Key, rank: real)
    requires CountersOk(s) && forall l1i :: At(s.handlers, Counted(|s.owners|), l1i) == {}
    ensures CountersOk(WithCell(s, m, k, rank))
  {
  }

  lemma InsertKeeps(s: State, id: nat, rank: real)
    requires Inv(s) && CanAct(s, id, Insert(rank))
    ensures Inv(AfterAction(s, id, Insert(rank)))
  {
    var h := s.handlers[id];
    var m, k := h.fate.m, KeyOf(h.ev);
    WithCellTables(s, m, k, rank);
    WithCellHandlers(s, m, k, rank);
    NewCellIsEmpty(s);
    WithCellRotator(s, m, k, rank);
    WithCellCounters(s, m, k, rank);
    QuietMove(WithCell(s, m, k, rank), id, Inserted(m));
  }

  predicate Hits(s: State, id: nat) {
    && id in s.handlers && s.handlers[id].fate.Holding?
    && LivesIn(TableOf(s, s.handlers[id].fate.m), KeyOf(s.handlers[id].ev), s.handlers[id].fate.gen)
  }

  /** The table keeps its keys, places, incarnations and copied amounts. */
  ghost predicate SameShape(t: CountTable, t': CountTable) {
    && t'.Keys == t.Keys
    && forall k | k in t ::
         t'[k].rank == t[k].rank && t'[k].value.gen == t[k].value.gen && Fresh(t'[k].value) == Fresh(t[k].value)
  }

  lemma AddShape(s: State, id: nat)
    requires Hits(s, id)
    ensures SameShape(s.map0, AfterAdd(s, id).map0) && SameShape(s.map1, AfterAdd(s, id).map1)
  {
  }

  lemma AddTables(s: State, id: nat)
    requires TablesOk(s) && RanksOk(s) && Hits(s, id)
    ensures TablesOk(AfterAdd(s, id)) && RanksOk(AfterAdd(s, id))
  {
    AddShape(s, id);
  }

  lemma AddHandlers(s: State, id: nat)
    requires HandlersOk(s) && Hits(s, id)
    ensures HandlersOk(AfterAdd(s, id))
  {
    AddShape(s, id);
  }

  lemma AddToCell(hs: map<nat, Handler>, id: nat, c: Counter)
    requires id in hs && hs[id].fate.Holding? && hs[id].fate.gen == c.gen && CellOk(hs, c)
    ensures CellOk(hs[id := hs[id].(fate := Counted(c.gen))], Bump(c, hs[id].ev.l1i))
  {
    var hs' := hs[id := hs[id].(fate := Counted(c.gen))];
    MovedOne(hs, id, hs'[id]);
    var l1i := hs[id].ev.l1i;
    assert id !in At(hs, Counted(c.gen), l1i);
    assert At(hs', Counted(c.gen), !l1i) == At(hs, Counted(c.gen), !l1i);
  }

  lemma AddElsewhere(hs: map<nat, Handler>, id: nat, gen: nat, c: Counter)
    requires id in hs && hs[id].fate.Holding? && gen != c.gen && CellOk(hs, c)
    ensures CellOk(hs[id := hs[id].(fate := Counted(gen))], c)
  {
    MovedOne(hs, id, hs[id].(fate := Counted(gen)));
  }

  lemma AddCell(s: State, id: nat, m: bool, k: Key)
    requires TablesOk(s) && Hits(s, id) && k in TableOf(s, m) && CellOk(s.handlers, TableOf(s, m)[k].value)
    ensures CellOk(AfterAdd(s, id).handlers, TableOf(AfterAdd(s, id), m)[k].value)
  {
    var h := s.handlers[id];
    if m == h.fate.m && k == KeyOf(h.ev) {
      AddToCell(s.handlers, id, TableOf(s, m)[k].value);
    } else {
      AddElsewhere(s.handlers, id, h.fate.gen, TableOf(s, m)[k].value);
    }
  }

  lemma AddCounters(s: State, id: nat)
    requires TablesOk(s) && CountersOk(s) && Hits(s, id)
    ensures CountersOk(AfterAdd(s, id))
  {
    var s' := AfterAdd(s, id);
    forall k | k in s'.map0
      ensures CellOk(s'.handlers, s'.map0[k].value)
    {
      AddCell(s, id, false, k);
    }
    forall k | k in s'.map1
      ensures CellOk(s'.handlers, s'.map1[k].value)
    {
      AddCell(s, id, true, k);
    }
  }

  lemma AddRows(s: State, id: nat)
    requires RowsOk(s) && DropsOk(s) && Hits(s, id)
    ensures RowsOk(AfterAdd(s, id)) && DropsOk(AfterAdd(s, id))
  {
    MovedOne(s.handlers, id, AfterAdd(s, id).handlers[id]);
  }

  ghost predicate StraddlersCarry(hs: map<nat, Handler>, hs': map<nat, Handler>, t: CountTable) {
    forall k | k in t :: OnlyStraddlers(hs, t[k].value.gen) ==> OnlyStraddlers(hs', t[k].value.gen)
  }

  /** A handler that never straddled adds to the active map, which the rotator is not scanning. */
  lemma AddWaiting(s: State, id: nat)
    requires TablesOk(s) && HandlersOk(s) && Hits(s, id)
    ensures StraddlersCarry(s.handlers, AfterAdd(s, id).handlers, TableOf(s, !s.active))
  {
    assert HandlerOk(s, s.handlers[id]);
  }

  lemma ShapeCarries(s: State, s': State)
    requires RotatorOk(s) && s'.rotator == s.rotator && s'.active == s.active
    requires SameShape(s.map0, s'.map0) && SameShape(s.map1, s'.map1)
    requires StraddlersCarry(s.handlers, s'.handlers, TableOf(s, !s.active))
    ensures RotatorOk(s')
  {
  }

  lemma AddKeeps(s: State, id: nat)
    requires Inv(s) && CanAct(s, id, Add)
    ensures Inv(AfterAdd(s, id))
  {
    if Hits(s, id) {
      AddTables(s, id);
      AddHandlers(s, id);
      AddCounters(s, id);
      AddRows(s, id);
      AddWaiting(s, id);
      AddShape(s, id);
      ShapeCarries(s, AfterAdd(s, id));
    } else {
      QuietMove(s, id, Lost);
    }
  }

  lemma ActionKeeps(s: State, id: nat, action: Action)
    requires Inv(s) && CanAct(s, id, action)
    ensures Inv(AfterAction(s, id, action))
  {
    match action {
      case Enter(ev) => EnterKeeps(s, id, ev);
      case CountDrop => CountDropKeeps(s, id);
      case Insert(rank) => InsertKeeps(s, id, rank);
      case Add => AddKeeps(s, id);
      case _ => MovesKeep(s, id, action);
    }
  }

  lemma FlipHandlers(s: State)
    requires TablesOk(s) && HandlersOk(s) && s.rotator == Sleeping
    ensures HandlersOk(AfterTurn(s, Flip)) && TablesOk(AfterTurn(s, Flip))
  {
    forall id | id in s.handlers
      ensures HandlerOk(AfterTurn(s, Flip), AfterTurn(s, Flip).handlers[id])
    {
      assert HandlerOk(s, s.handlers[id]);
    }
  }

  lemma FlipCounts(s: State)
    requires CountersOk(s) && RowsOk(s) && DropsOk(s) && s.rotator == Sleeping
    ensures CountersOk(AfterTurn(s, Flip)) && RowsOk(AfterTurn(s, Flip)) && DropsOk(AfterTurn(s, Flip))
  {
    FlipKeepsCounts(s.handlers);
  }

  lemma FlipKeeps(s: State)
    requires Inv(s) && s.rotator == Sleeping
    ensures Inv(AfterTurn(s, Flip))
  {
    FlipHandlers(s);
    FlipCounts(s);
  }

  lemma RotatorMoves(s: State, s': State)
    requires s'.handlers == s.handlers && s'.map0 == s.map0 && s'.map1 == s.map1 && s'.rows == s.rows
    requires s'.active == s.active && s'.owners == s.owners && s'.cfg == s.cfg
    requires s'.written <= |s.rows| && (s'.rotator == Sleeping || s'.rotator == Stopped ==> s'.written == |s.rows|)
    requires TablesOk(s) && RanksOk(s) && HandlersOk(s) && CountersOk(s) && RowsOk(s)
    ensures TablesOk(s') && RanksOk(s') && HandlersOk(s') && CountersOk(s') && RowsOk(s')
  {
  }

  lemma CollectRotator(s: State, turn: Turn)
    requires RanksOk(s) && RotatorOk(s) && CanTurn(s, turn)
    requires turn.FirstKey? || turn.NextKey?
    ensures RotatorOk(AfterTurn(s, turn))
  {
  }

  lemma ClearRotator(s: State, turn: Turn)
    requires RanksOk(s) && RotatorOk(s) && CanTurn(s, turn)
    requires turn.ClearFirst? || turn.ClearNext?
    ensures RotatorOk(AfterTurn(s, turn))
  {
  }

  lemma WalkKeeps(s: State, turn: Turn)
    requires Inv(s) && CanTurn(s, turn)
    requires turn.FirstKey? || turn.NextKey? || turn.ClearFirst? || turn.ClearNext?
    ensures Inv(AfterTurn(s, turn))
  {
    if turn.FirstKey? || turn.NextKey? {
      CollectRotator(s, turn);
    } else {
      ClearRotator(s, turn);
    }
    RotatorMoves(s, AfterTurn(s, turn));
  }

  lemma ReadShape(s: State)
    requires s.rotator.Reading?
    ensures var s' := AfterRead(s);
            && s'.map0.Keys == s.map0.Keys && s'.map1.Keys == s.map1.Keys
            && (forall k | k in s.map0 ::
                  s'.map0[k].value.gen == s.map0[k].value.gen && s'.map0[k].rank == s.map0[k].rank)
            && (forall k | k in s.map1 ::
                  s'.map1[k].value.gen == s.map1[k].value.gen && s'.map1[k].rank == s.map1[k].rank)
  {
  }

  lemma ReadTables(s: State)
    requires TablesOk(s) && s.rotator.Reading?
    ensures TablesOk(AfterRead(s))
  {
    ReadShape(s);
  }

  lemma ReadRanks(s: State)
    requires RanksOk(s) && s.rotator.Reading?
    ensures RanksOk(AfterRead(s))
  {
    ReadShape(s);
  }

  lemma ReadLives(s: State, m: bool, k: Key, g: nat)
    requires s.rotator.Reading?
    ensures LivesIn(TableOf(AfterRead(s), m), k, g) <==> LivesIn(TableOf(s, m), k, g)
  {
  }

  lemma ReadHandlers(s: State)
    requires HandlersOk(s) && TablesOk(s) && s.rotator.Reading? && s.rotator.key in TableOf(s, s.rotator.m)
    ensures HandlersOk(AfterRead(s))
  {
    var s' := AfterRead(s);
    forall id | id in s.handlers
      ensures HandlerOk(s', s'.handlers[id])
    {
      var h := s.handlers[id];
      assert HandlerOk(s, h);
      if h.fate.Holding? {
        ReadLives(s, h.fate.m, KeyOf(h.ev), h.fate.gen);
      } else if h.fate.Counted? {
        ReadLives(s, s.owners[h.fate.gen].0, KeyOf(h.ev), h.fate.gen);
      }
    }
  }

  lemma ReadMoves(s: State)
    requires HandlersOk(s) && s.rotator.Reading? && s.rotator.key in TableOf(s, s.rotator.m)
    ensures var c, hs' := TableOf(s, s.rotator.m)[s.rotator.key].value, AfterRead(s).handlers;
            && (forall f, l1i | f != Counted(c.gen) && f != Emitted(|s.rows|) ::
                At(hs', f, l1i) == At(s.handlers, f, l1i))
            && (forall l1i :: At(hs', Counted(c.gen), l1i) == {})
            && (forall l1i :: At(hs', Emitted(|s.rows|), l1i) == At(s.handlers, Counted(c.gen), l1i))
  {
    var from, to := Counted(TableOf(s, s.rotator.m)[s.rotator.key].value.gen), Emitted(|s.rows|);
    MovedAll(s.handlers, from, to);
    MovedAllHere(s.handlers, from, to, true);
    MovedAllHere(s.handlers, from, to, false);
  }

  lemma ReadCell(s: State, m: bool, k: Key)
    requires HandlersOk(s) && TablesOk(s) && s.rotator.Reading? && s.rotator.key in TableOf(s, s.rotator.m)
    requires k in TableOf(s, m) && CellOk(s.handlers, TableOf(s, m)[k].value)
    ensures CellOk(AfterRead(s).handlers, TableOf(AfterRead(s), m)[k].value)
  {
    ReadMoves(s);
  }

  lemma ReadCounters(s: State)
    requires TablesOk(s) && HandlersOk(s) && CountersOk(s) && s.rotator.Reading?
    requires s.rotator.key in TableOf(s, s.rotator.m)
    ensures CountersOk(AfterRead(s))
  {
    var s' := AfterRead(s);
    forall k | k in s'.map0
      ensures CellOk(s'.handlers, s'.map0[k].value)
    {
      ReadCell(s, false, k);
    }
    forall k | k in s'.map1
      ensures CellOk(s'.handlers, s'.map1[k].value)
    {
      ReadCell(s, true, k);
    }
  }

  /** The cell read was still fresh, so the row holds exactly the events that waited in it. */
  lemma ReadOldRow(s: State, i: nat)
    requires RowsOk(s) && s.rotator.Reading? && s.rotator.key in TableOf(s, s.rotator.m) && i < |s.rows|
    requires HandlersOk(s)
    ensures RowOk(AfterRead(s).handlers, s.rows[i], i)
  {
    ReadMoves(s);
    assert RowOk(s.handlers, s.rows[i], i);
  }

  lemma ReadNewRow(s: State)
    requires HandlersOk(s) && s.rotator.Reading? && s.rotator.key in TableOf(s, s.rotator.m)
    requires var c := TableOf(s, s.rotator.m)[s.rotator.key].value; Fresh(c) && CellOk(s.handlers, c)
    ensures var s' := AfterRead(s);
            |s'.rows| == |s.rows| + 1 && s'.rows[..|s.rows|] == s.rows
            && RowOk(s'.handlers, s'.rows[|s.rows|], |s.rows|)
  {
    ReadMoves(s);
  }

  lemma ReadRows(s: State)
    requires HandlersOk(s) && RowsOk(s) && s.rotator.Reading? && s.rotator.key in TableOf(s, s.rotator.m)
    requires var c := TableOf(s, s.rotator.m)[s.rotator.key].value; Fresh(c) && CellOk(s.handlers, c)
    ensures RowsOk(AfterRead(s))
  {
    hide HandlersOk, RowOk, CellOk;
    ReadNewRow(s);
    var s' := AfterRead(s);
    forall i | 0 <= i < |s'.rows|
      ensures RowOk(s'.handlers, s'.rows[i], i)
    {
      if i < |s.rows| {
        ReadOldRow(s, i);
        assert s'.rows[i] == s'.rows[..|s.rows|][i];
      }
    }
  }

  lemma ReadDropsOk(s: State)
    requires HandlersOk(s) && DropsOk(s) && s.rotator.Reading? && s.rotator.key in TableOf(s, s.rotator.m)
    ensures DropsOk(AfterRead(s))
  {
    ReadMoves(s);
  }

  lemma ReadRotator(s: State)
    requires RanksOk(s) && RotatorOk(s) && s.rotator.Reading?
    ensures RotatorOk(AfterRead(s))
  {
  }

  lemma ReadKeeps(s: State)
    requires Inv(s) && s.rotator.Reading?
    ensures Inv(AfterRead(s))
  {
    ReadTables(s);
    ReadRanks(s);
    ReadHandlers(s);
    ReadCounters(s);
    ReadRows(s);
    ReadDropsOk(s);
    ReadRotator(s);
  }

  lemma DeleteTables(s: State)
    requires TablesOk(s) && RanksOk(s) && s.rotator.Deleting?
    ensures TablesOk(AfterDelete(s)) && RanksOk(AfterDelete(s))
  {
  }

  /** Only straddlers wait in the deleted cell, and only straddlers may point into it. */
  lemma DeleteHandlers(s: State)
    requires TablesOk(s) && HandlersOk(s) && RotatorOk(s) && s.rotator.Deleting?
    ensures HandlersOk(AfterDelete(s))
  {
    forall id | id in s.handlers
      ensures HandlerOk(AfterDelete(s), AfterDelete(s).handlers[id])
    {
      assert HandlerOk(s, s.handlers[id]);
    }
  }

  lemma DeleteMoves(s: State)
    requires s.rotator.Deleting? && s.rotator.key in TableOf(s, s.rotator.m)
    ensures var gen := TableOf(s, s.rotator.m)[s.rotator.key].value.gen;
            forall f, l1i | f != Counted(gen) && f != Lost ::
                At(AfterDelete(s).handlers, f, l1i) == At(s.handlers, f, l1i)
  {
    MovedAll(s.handlers, Counted(TableOf(s, s.rotator.m)[s.rotator.key].value.gen), Lost);
  }

  lemma DeleteRows(s: State)
    requires RowsOk(s) && DropsOk(s) && s.rotator.Deleting? && s.rotator.key in TableOf(s, s.rotator.m)
    ensures RowsOk(AfterDelete(s)) && DropsOk(AfterDelete(s))
  {
    DeleteMoves(s);
  }

  lemma DeleteCell(s: State, m: bool, k: Key)
    requires TablesOk(s) && s.rotator.Deleting? && s.rotator.key in TableOf(s, s.rotator.m)
    requires k in TableOf(AfterDelete(s), m) && CellOk(s.handlers, TableOf(s, m)[k].value)
    ensures CellOk(AfterDelete(s).handlers, TableOf(AfterDelete(s), m)[k].value)
  {
    DeleteMoves(s);
  }

  lemma DeleteCounters(s: State)
    requires TablesOk(s) && CountersOk(s) && s.rotator.Deleting? && s.rotator.key in TableOf(s, s.rotator.m)
    ensures CountersOk(AfterDelete(s))
  {
    var s' := AfterDelete(s);
    forall k | k in s'.map0
      ensures CellOk(s'.handlers, s'.map0[k].value)
    {
      DeleteCell(s, false, k);
    }
    forall k | k in s'.map1
      ensures CellOk(s'.handlers, s'.map1[k].value)
    {
      DeleteCell(s, true, k);
    }
  }

  lemma DeleteRotator(s: State)
    requires RotatorOk(s) && s.rotator.Deleting?
    ensures RotatorOk(AfterDelete(s))
  {
  }

  lemma DeleteKeeps(s: State)
    requires Inv(s) && s.rotator.Deleting?
    ensures Inv(AfterDelete(s))
  {
    DeleteTables(s);
    DeleteHandlers(s);
    DeleteRows(s);
    DeleteCounters(s);
    DeleteRotator(s);
  }

  predicate IsReport(turn: Turn) {
    turn.FlipFails? || turn.ReadDrops? || turn.ResetDrops? || turn.WriteRows? || turn.Exit?
  }

  lemma ReportRotator(s: State, turn: Turn)
    requires RotatorOk(s) && CanTurn(s, turn) && IsReport(turn)
    ensures RotatorOk(AfterTurn(s, turn))
  {
  }

  lemma ReportDrops(s: State, turn: Turn)
    requires DropsOk(s) && CanTurn(s, turn) && IsReport(turn)
    ensures DropsOk(AfterTurn(s, turn))
  {
  }

  lemma ReportKeeps(s: State, turn: Turn)
    requires Inv(s) && CanTurn(s, turn) && IsReport(turn)
    ensures Inv(AfterTurn(s, turn))
  {
    ReportRotator(s, turn);
    ReportDrops(s, turn);
    RotatorMoves(s, AfterTurn(s, turn));
  }

  lemma TurnKeeps(s: State, turn: Turn)
    requires Inv(s) && CanTurn(s, turn)
    ensures Inv(AfterTurn(s, turn))
  {
    match turn {
      case Flip => FlipKeeps(s);
      case ReadKey => ReadKeeps(s);
      case DeleteKey => DeleteKeeps(s);
      case FirstKey(_) | NextKey(_) | ClearFirst(_) | ClearNext(_) => WalkKeeps(s, turn);
      case _ => ReportKeeps(s, turn);
    }
  }

  lemma StepKeeps(s: State, step: Step)
    requires Inv(s) && Enabled(s, step)
    ensures Inv(Apply(s, step))
  {
    match step {
      case Handle(id, action) => ActionKeeps(s, id, action);
      case Rotate(turn) => TurnKeeps(s, turn);
    }
  }

  /** Every state of every run keeps the invariant. */
  lemma {:induction false} RunKeeps(s: State, steps: seq<Step>, s': State)
    requires Inv(s) && Run(s, steps, s')
    ensures Inv(s')
    decreases |steps|
  {
    if steps == [] {
    } else {
      StepKeeps(s, steps[0]);
      RunKeeps(Apply(s, steps[0]), steps[1..], s');
    }
  }

  lemma ReachableInv(s: State)
    requires Reachable(s)
    ensures Inv(s)
  {
    var cfg, steps :| Run(Initial(cfg), steps, s);
    RunKeeps(Initial(cfg), steps, s);
  }
}
