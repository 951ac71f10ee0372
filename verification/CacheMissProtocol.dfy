/**
 The double-buffered cache-miss counters: event handlers in the kernel run concurrently with a
 user-space rotator that flips `active_map`, walks the retired map, clears it and reports.
 Every shared-memory access is one step, so a run is any interleaving of them.
 */
module CacheMissProtocol {
  import opened Options
  import opened BpfTable

  const ANY_CPU: nat := 0xFFFF_FFFF
  const CACHE_MAX_ENTRIES: nat := 65535

  datatype Config = Config(pid: nat, tid: nat, cpu: nat)
  datatype Event = Event(tgid: nat, pid: nat, cpu: nat, l1i: bool)
  datatype Key = Key(tgid: nat, pid: nat, cpu: nat)

  predicate Matches(cfg: Config, ev: Event) {
    && (cfg.pid != 0 ==> ev.tgid == cfg.pid)
    && (cfg.tid != 0 ==> ev.pid == cfg.tid)
    && (cfg.cpu != ANY_CPU ==> ev.cpu == cfg.cpu)
  }

  function KeyOf(ev: Event): Key {
    Key(ev.tgid, ev.pid, ev.cpu)
  }

  /**
   A counter cell.  `gen` names this incarnation of the cell (what a handler's pointer refers to);
   `takenL1i`/`takenLlc` remember what the current collection already copied out of it.  The state
   keeps, as history, which map and key every incarnation was made for (`owners`).
   */
  datatype Counter = Counter(gen: nat, l1i: nat, llc: nat, takenL1i: nat, takenLlc: nat)
  type CountTable = Table<Key, Counter>

  /** Where the handler of one event stands, or what became of its event. */
  datatype Fate =
    | Entered                          // matched, has not read active_map yet
    | Looking(m: bool)                 // chose map m
    | Absent(m: bool)                  // first lookup found nothing
    | Rejected                         // insertion failed, drop not counted yet
    | Inserted(m: bool)                // inserted a zero cell, about to look it up
    | Holding(m: bool, gen: nat)       // owns a pointer into cell `gen`
    | Skipped                          // the filter refused the event
    | Dropped                          // counted in drop_count_map
    | Counted(gen: nat)                // added to cell `gen`, not copied out yet
    | Emitted(row: nat)                // part of a collected row
    | Lost                             // its increment reached no row and never will

  datatype Handler = Handler(ev: Event, fate: Fate, straddled: bool)

  datatype Row = Row(key: Key, l1i: nat, llc: nat)

  /** The rotator's program counter; `m` is the map being read. */
  datatype Rotator =
    | Sleeping
    | Walking(m: bool)
    | Reading(m: bool, key: Key)
    | Advancing(m: bool, key: Key)
    | Clearing(m: bool)
    | Seeking(m: bool, key: Key)
    | Deleting(m: bool, key: Key, next: Option<Key>)
    | Draining
    | Resetting(seen: nat)
    | Writing
    | Stopped

  datatype State = State(
    cfg: Config,
    active: bool,
    map0: CountTable,
    map1: CountTable,
    drops: nat,
    owners: seq<(bool, Key)>,
    handlers: map<nat, Handler>,
    rotator: Rotator,
    rows: seq<Row>,
    written: nat,
    reported: nat,
    forgotten: nat)

  function TableOf(s: State, m: bool): CountTable {
    if m then s.map1 else s.map0
  }

  function WithTable(s: State, m: bool, t: CountTable): State {
    if m then s.(map1 := t) else s.(map0 := t)
  }

  function Initial(cfg: Config): State {
    State(cfg, false, map[], map[], 0, [], map[], Sleeping, [], 0, 0, 0)
  }

  // ----- The steps ------------------------------------------------------------------------

  /** One step of the handler of one event. */
  datatype Action =
    | Enter(ev: Event)
    | Choose
    | Lookup
    | Insert(rank: real)
    | InsertFails
    | CountDrop
    | Relookup
    | Add

  /** One step of the rotator; `next` is what `bpf_map_get_next_key` answers. */
  datatype Turn =
    | Flip
    | FlipFails
    | FirstKey(next: Option<Key>)
    | ReadKey
    | NextKey(next: Option<Key>)
    | ClearFirst(next: Option<Key>)
    | ClearNext(next: Option<Key>)
    | DeleteKey
    | ReadDrops
    | ResetDrops
    | WriteRows
    | Exit

  datatype Step = Handle(id: nat, action: Action) | Rotate(turn: Turn)

  predicate CanAct(s: State, id: nat, action: Action) {
    if action.Enter? then id !in s.handlers
    else
      && id in s.handlers
      && var h := s.handlers[id];
         match action
         case Enter(_) => false
         case Choose => h.fate == Entered
         case Lookup => h.fate.Looking?
         case Insert(rank) =>
           && h.fate.Absent?
           && var t := TableOf(s, h.fate.m);
              KeyOf(h.ev) !in t && |t| < CACHE_MAX_ENTRIES && forall k | k in t :: t[k].rank != rank
         case InsertFails => h.fate.Absent?
         case CountDrop => h.fate == Rejected
         case Relookup => h.fate.Inserted?
         case Add => h.fate.Holding?
  }

  ghost predicate CanTurn(s: State, turn: Turn) {
    match turn
    case Flip | FlipFails | Exit => s.rotator == Sleeping
    case FirstKey(next) => s.rotator.Walking? && IsNextKey(TableOf(s, s.rotator.m), None, next)
    case ReadKey => s.rotator.Reading?
    case NextKey(next) => s.rotator.Advancing? && IsNextKey(TableOf(s, s.rotator.m), Some(s.rotator.key), next)
    case ClearFirst(next) => s.rotator.Clearing? && IsNextKey(TableOf(s, s.rotator.m), None, next)
    case ClearNext(next) => s.rotator.Seeking? && IsNextKey(TableOf(s, s.rotator.m), Some(s.rotator.key), next)
    case DeleteKey => s.rotator.Deleting?
    case ReadDrops => s.rotator == Draining
    case ResetDrops => s.rotator.Resetting?
    case WriteRows => s.rotator == Writing
  }

  ghost predicate Enabled(s: State, step: Step) {
    match step
    case Handle(id, action) => CanAct(s, id, action)
    case Rotate(turn) => CanTurn(s, turn)
  }

  function SetFate(s: State, id: nat, f: Fate): State
    requires id in s.handlers
  {
    s.(handlers := s.handlers[id := s.handlers[id].(fate := f)])
  }

  /** Every handler at fate `from` moves to `to`. */
  function Resettle(hs: map<nat, Handler>, from: Fate, to: Fate): map<nat, Handler> {
    map id | id in hs :: if hs[id].fate == from then hs[id].(fate := to) else hs[id]
  }

  /** Has the handler chosen a map and not finished with it? */
  predicate HasChosen(f: Fate) {
    f.Looking? || f.Absent? || f.Rejected? || f.Inserted? || f.Holding?
  }

  predicate InFlight(f: Fate) {
    f.Entered? || HasChosen(f)
  }

  /** A flip turns every handler that is still busy with a chosen map into a straddler. */
  function MarkStraddlers(hs: map<nat, Handler>): map<nat, Handler> {
    map id | id in hs :: if HasChosen(hs[id].fate) then hs[id].(straddled := true) else hs[id]
  }

  function Bump(c: Counter, l1i: bool): Counter {
    if l1i then c.(l1i := c.l1i + 1) else c.(llc := c.llc + 1)
  }

  function AfterAdd(s: State, id: nat): State
    requires id in s.handlers && s.handlers[id].fate.Holding?
  {
    var h := s.handlers[id];
    var t := TableOf(s, h.fate.m);
    var k := KeyOf(h.ev);
    if k in t && t[k].value.gen == h.fate.gen then
      SetFate(WithTable(s, h.fate.m, t[k := t[k].(value := Bump(t[k].value, h.ev.l1i))]), id, Counted(h.fate.gen))
    else
      SetFate(s, id, Lost)
  }

  function AfterRead(s: State): State
    requires s.rotator.Reading?
  {
    var Reading(m, k) := s.rotator;
    var t := TableOf(s, m);
    var s1 := s.(rotator := Advancing(m, k));
    if k in t then
      var c := t[k].value;
      WithTable(s1, m, t[k := t[k].(value := c.(takenL1i := c.l1i, takenLlc := c.llc))])
        .(rows := s.rows + [Row(k, c.l1i, c.llc)],
          handlers := Resettle(s.handlers, Counted(c.gen), Emitted(|s.rows|)))
    else
      s1
  }

  function AfterDelete(s: State): State
    requires s.rotator.Deleting?
  {
    var Deleting(m, k, next) := s.rotator;
    var t := TableOf(s, m);
    var s1 := s.(rotator := if next.Some? then Seeking(m, next.value) else Draining);
    if k in t then
      WithTable(s1, m, t - {k}).(handlers := Resettle(s.handlers, Counted(t[k].value.gen), Lost))
    else
      s1
  }

  /** The table side of an insertion: a zero cell of a new incarnation. */
  function WithCell(s: State, m: bool, k: Key, rank: real): State {
    WithTable(s, m, TableOf(s, m)[k := Slot(rank, Counter(|s.owners|, 0, 0, 0, 0))])
      .(owners := s.owners + [(m, k)])
  }

  function AfterAction(s: State, id: nat, action: Action): State
    requires CanAct(s, id, action)
  {
    if action.Enter? then
      var fate := if Matches(s.cfg, action.ev) then Entered else Skipped;
      s.(handlers := s.handlers[id := Handler(action.ev, fate, false)])
    else
      var h := s.handlers[id];
      match action
      case Choose => SetFate(s, id, Looking(s.active))
      case Lookup =>
        var t, k := TableOf(s, h.fate.m), KeyOf(h.ev);
        SetFate(s, id, if k in t then Holding(h.fate.m, t[k].value.gen) else Absent(h.fate.m))
      case Insert(rank) => SetFate(WithCell(s, h.fate.m, KeyOf(h.ev), rank), id, Inserted(h.fate.m))
      case InsertFails => SetFate(s, id, Rejected)
      case CountDrop => SetFate(s.(drops := s.drops + 1), id, Dropped)
      case Relookup =>
        var t, k := TableOf(s, h.fate.m), KeyOf(h.ev);
        SetFate(s, id, if k in t then Holding(h.fate.m, t[k].value.gen) else Lost)
      case Add => AfterAdd(s, id)
  }

  function AfterTurn(s: State, turn: Turn): State
    requires CanTurn(s, turn)
  {
    match turn
    case Flip =>
      s.(active := !s.active, rotator := Walking(s.active), handlers := MarkStraddlers(s.handlers))
    case FlipFails | Exit => s.(rotator := Stopped)
    case FirstKey(next) =>
      s.(rotator := if next.Some? then Reading(s.rotator.m, next.value) else Clearing(s.rotator.m))
    case NextKey(next) =>
      s.(rotator := if next.Some? then Reading(s.rotator.m, next.value) else Clearing(s.rotator.m))
    case ReadKey => AfterRead(s)
    case ClearFirst(next) =>
      s.(rotator := if next.Some? then Seeking(s.rotator.m, next.value) else Draining)
    case ClearNext(next) => s.(rotator := Deleting(s.rotator.m, s.rotator.key, next))
    case DeleteKey => AfterDelete(s)
    case ReadDrops => s.(rotator := Resetting(s.drops), reported := s.reported + s.drops)
    case ResetDrops =>
      s.(rotator := Writing, drops := 0,
         forgotten := s.forgotten + if s.drops >= s.rotator.seen then s.drops - s.rotator.seen else 0)
    case WriteRows => s.(rotator := Sleeping, written := |s.rows|)
  }

  function Apply(s: State, step: Step): State
    requires Enabled(s, step)
  {
    match step
    case Handle(id, action) => AfterAction(s, id, action)
    case Rotate(turn) => AfterTurn(s, turn)
  }

  /** `s'` is reached from `s` by exactly these steps. */
  ghost predicate Run(s: State, steps: seq<Step>, s': State)
    decreases |steps|
  {
    if steps == [] then s' == s
    else Enabled(s, steps[0]) && Run(Apply(s, steps[0]), steps[1..], s')
  }

  ghost predicate Reachable(s: State) {
    exists cfg, steps :: Run(Initial(cfg), steps, s)
  }
}
