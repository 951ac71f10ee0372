/** The ring of rotated log files: sessions, rotation, clearing, and the merged read-back. */
module RotatedFileStorage {

  /** The shared state: the contents of each file, how many sessions claim it, the current file. */
  datatype Store = Store(files: seq<string>, flags: seq<int>, index: nat)

  predicate WellFormed(s: Store) {
    |s.files| == |s.flags| && s.index < |s.files|
  }

  function Next(i: nat, n: nat): nat
    requires i < n
  {
    (i + 1) % n
  }

  // ----- The operations as functions --------------------------------------------------------

  /** The current file is full and nobody claims the next one. */
  predicate Rotates(s: Store, limit: int)
    requires WellFormed(s)
  {
    |s.files[s.index]| >= limit && s.flags[Next(s.index, |s.files|)] == 0
  }

  function CheckSizeAndRotate(s: Store, limit: int): Store
    requires WellFormed(s)
  {
    var next := Next(s.index, |s.files|);
    if Rotates(s, limit) then s.(files := s.files[next := ""], index := next) else s
  }

  function Enter(s: Store, limit: int): Store
    requires WellFormed(s)
  {
    var r := CheckSizeAndRotate(s, limit);
    r.(flags := r.flags[r.index := r.flags[r.index] + 1])
  }

  /** Append mode: whatever the session's file holds, the text goes to its end. */
  function Write(s: Store, fd: nat, text: string): Store
    requires WellFormed(s) && fd < |s.files|
  {
    s.(files := s.files[fd := s.files[fd] + text])
  }

  function Exit(s: Store, limit: int): Store
    requires WellFormed(s)
  {
    CheckSizeAndRotate(s.(flags := s.flags[s.index := s.flags[s.index] - 1]), limit)
  }

  /** Files in use are spared, but the ring restarts at file 0 all the same. */
  function ClearAll(s: Store): Store
    requires WellFormed(s)
  {
    s.(files := seq(|s.files|, i requires 0 <= i < |s.files| => if s.flags[i] == 0 then "" else s.files[i]), index := 0)
  }

  function RingAt(files: seq<string>, start: nat, i: nat): string
    requires files != []
  {
    files[(start + i) % |files|]
  }

  /** The contents of `k` files in ring order, from `start`. */
  function Ring(files: seq<string>, start: nat, k: nat): string
    requires files != []
  {
    if k == 0 then "" else Ring(files, start, k - 1) + RingAt(files, start, k - 1)
  }

  /** The merged read: every file once, oldest first, the current one last. */
  function Merged(s: Store): string
    requires WellFormed(s)
  {
    Ring(s.files, s.index + 1, |s.files|)
  }

  // ----- The class -----------------------------------------------------------------------------

  class Storage {
    const limit: int
    var files: seq<string>
    var accessing: seq<int>
    var index: nat

    ghost predicate Valid()
      reads this
    {
      WellFormed(View())
    }

    function View(): Store
      reads this
    {
      Store(files, accessing, index)
    }

    constructor (maxSizeInMb: int, rotationCnt: nat)
      ensures limit == maxSizeInMb * 1024 * 1024
      ensures rotationCnt > 0 ==> Valid()
      ensures View() == Store(seq(rotationCnt, _ => ""), seq(rotationCnt, _ => 0), 0)
    {
      limit := maxSizeInMb * 1024 * 1024;
      files, accessing, index := seq(rotationCnt, _ => ""), seq(rotationCnt, _ => 0), 0;
    }

    method CheckSizeAndRotateNow()
      requires Valid()
      modifies this
      ensures Valid() && View() == CheckSizeAndRotate(old(View()), limit)
    {
      if |files[index]| >= limit {
        var nextIndex := (index + 1) % |files|;
        if accessing[nextIndex] == 0 {
          files := files[nextIndex := ""];
          index := nextIndex;
        }
      }
    }

    method EnterSession() returns (fd: nat)
      requires Valid()
      modifies this
      ensures Valid() && View() == Enter(old(View()), limit) && fd == index
    {
      CheckSizeAndRotateNow();
      accessing := accessing[index := accessing[index] + 1];
      fd := index;
    }

    method WriteTo(fd: nat, text: string)
      requires Valid() && fd < |files|
      modifies this
      ensures Valid() && View() == Write(old(View()), fd, text)
    {
      files := files[fd := files[fd] + text];
    }

    method ExitSession()
      requires Valid()
      modifies this
      ensures Valid() && View() == Exit(old(View()), limit)
    {
      accessing := accessing[index := accessing[index] - 1];
      CheckSizeAndRotateNow();
    }

    method Clear()
      requires Valid()
      modifies this
      ensures Valid() && View() == ClearAll(old(View()))
    {
      var before := files;
      for i := 0 to |files|
        invariant |files| == |before| && accessing == old(accessing) && index == old(index) && Valid()
        invariant forall k | 0 <= k < |files| :: files[k] == if k < i && accessing[k] == 0 then "" else before[k]
      {
        if accessing[i] == 0 {
          files := files[i := ""];
        }
      }
      index := 0;
      assert files == ClearAll(old(View())).files;
    }

    /** Reads every file in ring order, 64 KiB at a time. */
    method GetAllFilesAsStream() returns (merged: string)
      requires Valid()
      ensures merged == Merged(View())
    {
      merged := "";
      for i := 0 to |files|
        invariant merged == Ring(files, index + 1, i)
      {
        var file := files[(index + 1 + i) % |files|];
        var at := 0;
        ghost var before := merged;
        while at < |file|
          invariant 0 <= at <= |file| && merged == before + file[..at]
        {
          var chunk := if at + 65536 < |file| then 65536 else |file| - at;
          assert file[..at + chunk] == file[..at] + file[at..at + chunk];
          merged := merged + file[at..at + chunk];
          at := at + chunk;
        }
        assert file[..|file|] == file;
      }
    }
  }

  // ----- What the operations do -------------------------------------------------------------------

  /**
   The check turns exactly when the current file has reached the limit and nobody claims the file
   after it, the first one coming after the last: that file is emptied and becomes the current one.
   */
  lemma CheckMeans(s: Store, limit: int)
    requires WellFormed(s)
    ensures var r, n := CheckSizeAndRotate(s, limit), |s.files|;
            var next := (s.index + 1) % n;
            if |s.files[s.index]| >= limit && s.flags[next] == 0 then
              && r.index == next && r.flags == s.flags && |r.files| == n && r.files[next] == ""
              && forall i | 0 <= i < n && i != next :: r.files[i] == s.files[i]
            else r == s
  {
  }

  /** Right after a check the current file is below the limit, or the file after it is claimed. */
  lemma CheckBounds(s: Store, limit: int)
    requires WellFormed(s) && limit > 0
    ensures var r := CheckSizeAndRotate(s, limit);
            |r.files[r.index]| < limit || r.flags[(r.index + 1) % |r.files|] != 0
  {
  }

  /** A session claims the current file as the check left it; its end takes one claim off and checks. */
  lemma SessionMeans(s: Store, limit: int)
    requires WellFormed(s)
    ensures var r, e := CheckSizeAndRotate(s, limit), Enter(s, limit);
            && e.files == r.files && e.index == r.index && e.flags[r.index] == r.flags[r.index] + 1
            && |e.flags| == |r.flags| && forall i | 0 <= i < |r.flags| && i != r.index :: e.flags[i] == r.flags[i]
    ensures exists d: Store ::
              && WellFormed(d) && d.files == s.files && d.index == s.index && |d.flags| == |s.flags|
              && d.flags[s.index] == s.flags[s.index] - 1
              && (forall i | 0 <= i < |s.flags| && i != s.index :: d.flags[i] == s.flags[i])
              && Exit(s, limit) == CheckSizeAndRotate(d, limit)
  {
    var d := s.(flags := s.flags[s.index := s.flags[s.index] - 1]);
    hide CheckSizeAndRotate;
    assert Exit(s, limit) == CheckSizeAndRotate(d, limit);
  }

  function Joined(files: seq<string>): string {
    if files == [] then "" else files[0] + Joined(files[1..])
  }

  /** The merged read is the files after the current one, then those from the first to the current one. */
  lemma MergedMeans(s: Store)
    requires WellFormed(s)
    ensures Merged(s) == Joined(s.files[s.index + 1..] + s.files[..s.index + 1])
  {
    var n, files := |s.files|, s.files[s.index + 1..] + s.files[..s.index + 1];
    forall i: nat | i < n
      ensures RingAt(s.files, s.index + 1, i) == files[i]
    {
      RingAtIs(s.files, s.index + 1, i);
    }
    RingJoins(s.files, s.index + 1, files, n);
    assert files[..n] == files;
  }

  lemma {:induction false} RingJoins(files: seq<string>, start: nat, order: seq<string>, k: nat)
    requires files != [] && k <= |order| && forall i: nat | i < k :: RingAt(files, start, i) == order[i]
    ensures Ring(files, start, k) == Joined(order[..k])
  {
    hide RingAt;
    if k > 0 {
      RingJoins(files, start, order, k - 1);
      JoinedLast(order[..k - 1], order[k - 1]);
      assert order[..k] == order[..k - 1] + [order[k - 1]];
    }
  }

  lemma {:induction false} JoinedLast(files: seq<string>, file: string)
    ensures Joined(files + [file]) == Joined(files) + file
  {
    if files == [] {
      assert Joined([file]) == file + "";
    } else {
      JoinedLast(files[1..], file);
      assert (files + [file])[1..] == files[1..] + [file];
    }
  }

  // ----- Runs -------------------------------------------------------------------------------------

  /**
   The storage over time: which file each open session was handed, the sessions whose handle was
   closed because their file was emptied, all text since the last clear, the rotations since then.
   */
  datatype Log = Log(store: Store, held: map<nat, nat>, closed: set<nat>, history: string, rotations: nat)

  datatype Act = Start(id: nat) | Append(id: nat, text: string) | Stop(id: nat) | ClearFiles

  function Fresh(n: nat): Log {
    Log(Store(seq(n, _ => ""), seq(n, _ => 0), 0), map[], {}, "", 0)
  }

  function Released(s: Store): Store
    requires WellFormed(s)
  {
    s.(flags := s.flags[s.index := s.flags[s.index] - 1])
  }

  function Holders(held: map<nat, nat>, fd: nat): set<nat> {
    set id | id in held && held[id] == fd
  }

  /** Emptying a file to rotate into it closes its handle. */
  function ClosedBy(c: Log, s: Store, limit: int): set<nat>
    requires WellFormed(s)
  {
    c.closed + if Rotates(s, limit) then Holders(c.held, Next(s.index, |s.files|)) else {}
  }

  function Turned(s: Store, limit: int): nat
    requires WellFormed(s)
  {
    if Rotates(s, limit) then 1 else 0
  }

  predicate Sane(c: Log) {
    WellFormed(c.store) && forall id | id in c.held :: c.held[id] < |c.store.files|
  }

  /** One act; sessions are new when they start, and an act without its session or handle does nothing. */
  function Do(c: Log, a: Act, limit: int): (c': Log)
    requires Sane(c)
    ensures Sane(c') && |c'.store.files| == |c.store.files|
  {
    match a
    case Start(id) =>
      if id in c.held then c
      else
        var r := Enter(c.store, limit);
        Log(r, c.held[id := r.index], ClosedBy(c, c.store, limit) - {id}, c.history,
            c.rotations + Turned(c.store, limit))
    case Append(id, text) =>
      if id !in c.held || id in c.closed then c
      else c.(store := Write(c.store, c.held[id], text), history := c.history + text)
    case Stop(id) =>
      if id !in c.held then c
      else
        var r := Released(c.store);
        Log(Exit(c.store, limit), c.held - {id}, ClosedBy(c, r, limit), c.history, c.rotations + Turned(r, limit))
    case ClearFiles =>
      Log(ClearAll(c.store), c.held, c.closed + set id | id in c.held && c.store.flags[c.held[id]] == 0, "", 0)
  }

  /** A new session is handed the current file; the handles of a file emptied for it are closed. */
  lemma StartMeans(c: Log, id: nat, limit: int)
    requires Sane(c) && id !in c.held
    ensures var c', s, next := Do(c, Start(id), limit), c.store, (c.store.index + 1) % |c.store.files|;
            var turns := |s.files[s.index]| >= limit && s.flags[next] == 0;
            && c'.store == Enter(s, limit) && c'.history == c.history && c'.held == c.held[id := c'.store.index]
            && c'.rotations == c.rotations + (if turns then 1 else 0)
            && forall x :: x in c'.closed <==>
                            x != id && (x in c.closed || (turns && x in c.held && c.held[x] == next))
  {
  }

  /** An open session whose handle is open appends to the end of the file it was handed. */
  lemma AppendMeans(c: Log, id: nat, text: string, limit: int)
    requires Sane(c)
    ensures var c', f := Do(c, Append(id, text), limit), c.store.files;
            && c'.held == c.held && c'.closed == c.closed && c'.rotations == c.rotations
            && c'.store.flags == c.store.flags && c'.store.index == c.store.index
            && if id in c.held && id !in c.closed then
                 c'.store.files == f[c.held[id] := f[c.held[id]] + text] && c'.history == c.history + text
               else c'.store.files == f && c'.history == c.history
  {
  }

  /** The end of a session releases the current file, whichever file the session was handed. */
  lemma StopMeans(c: Log, id: nat, limit: int)
    requires Sane(c) && id in c.held
    ensures var c', s, next := Do(c, Stop(id), limit), c.store, (c.store.index + 1) % |c.store.files|;
            var left := if next == s.index then s.flags[next] - 1 else s.flags[next];
            var turns := |s.files[s.index]| >= limit && left == 0;
            && c'.store == Exit(s, limit) && c'.history == c.history && c'.held == c.held - {id}
            && c'.rotations == c.rotations + (if turns then 1 else 0)
            && forall x :: x in c'.closed <==> x in c.closed || (turns && x in c.held && c.held[x] == next)
  {
  }

  /** A clear empties the files nobody claims, closes their handles and goes back to file 0. */
  lemma ClearMeans(c: Log, limit: int)
    requires Sane(c)
    ensures var c', s := Do(c, ClearFiles, limit), c.store;
            && c'.store.index == 0 && c'.store.flags == s.flags && |c'.store.files| == |s.files|
            && (forall i | 0 <= i < |s.files| :: c'.store.files[i] == if s.flags[i] == 0 then "" else s.files[i])
            && c'.history == "" && c'.held == c.held && c'.rotations == 0
            && forall x :: x in c'.closed <==> x in c.closed || (x in c.held && s.flags[c.held[x]] == 0)
  {
  }

  /** The state after any sequence of acts on `n` new files. */
  function After(n: nat, acts: seq<Act>, limit: int): (c: Log)
    requires n > 0
    ensures Sane(c) && |c.store.files| == n
  {
    if acts == [] then Fresh(n) else Do(After(n, acts[..|acts| - 1], limit), acts[|acts| - 1], limit)
  }

  /** Just before act number `k`. */
  function Before(n: nat, acts: seq<Act>, limit: int, k: nat): (c: Log)
    requires n > 0 && k <= |acts|
    ensures Sane(c) && |c.store.files| == n
  {
    After(n, acts[..k], limit)
  }

  lemma BeforeInit(n: nat, acts: seq<Act>, limit: int, k: nat)
    requires n > 0 && acts != [] && k < |acts|
    ensures Before(n, acts[..|acts| - 1], limit, k) == Before(n, acts, limit, k)
  {
    assert acts[..|acts| - 1][..k] == acts[..k];
  }

  /** No session starts while another is open. */
  ghost predicate Alone(n: nat, acts: seq<Act>, limit: int)
    requires n > 0
  {
    forall k | 0 <= k < |acts| && acts[k].Start? :: Before(n, acts, limit, k).held == map[]
  }

  /** No file whose flag is set holds text. */
  predicate Clean(s: Store)
    requires WellFormed(s)
  {
    forall i | 0 <= i < |s.files| :: s.flags[i] != 0 ==> s.files[i] == ""
  }

  ghost predicate ClearsAreClean(n: nat, acts: seq<Act>, limit: int)
    requires n > 0
  {
    forall k | 0 <= k < |acts| && acts[k] == ClearFiles :: Clean(Before(n, acts, limit, k).store)
  }

  predicate IsSuffix(a: string, b: string) {
    |a| <= |b| && b[|b| - |a|..] == a
  }

  lemma SuffixShrinks(a: string, b: string, h: string)
    requires IsSuffix(a + b, h)
    ensures IsSuffix(b, h)
  {
    assert h[|h| - |b|..] == h[|h| - |a + b|..][|a|..];
  }

  lemma SuffixGrows(a: string, h: string, t: string)
    requires IsSuffix(a, h)
    ensures IsSuffix(a + t, h + t)
  {
  }

  lemma Wraps(x: nat, n: nat)
    requires 0 < n && x < 2 * n
    ensures x % n == if x < n then x else x - n
  {
    if x >= n {
      assert x == n + (x - n);
    }
  }

  lemma {:induction false} RingFirst(files: seq<string>, start: nat, k: nat)
    requires files != []
    ensures Ring(files, start, k + 1) == RingAt(files, start, 0) + Ring(files, start + 1, k)
  {
    hide RingAt, Ring;
    RingNone(files, start);
    RingNone(files, start + 1);
    RingLast(files, start, k);
    if k == 0 {
      assert RingAt(files, start, 0) + "" == "" + RingAt(files, start, 0);
    } else {
      RingFirst(files, start, k - 1);
      RingShift(files, start, k - 1);
      RingLast(files, start + 1, k - 1);
      Associates(RingAt(files, start, 0), Ring(files, start + 1, k - 1), RingAt(files, start, k));
    }
  }

  lemma RingNone(files: seq<string>, start: nat)
    requires files != []
    ensures Ring(files, start, 0) == ""
  {
  }

  lemma RingLast(files: seq<string>, start: nat, k: nat)
    requires files != []
    ensures Ring(files, start, k + 1) == Ring(files, start, k) + RingAt(files, start, k)
  {
  }

  lemma Associates(a: string, b: string, c: string)
    ensures (a + b) + c == a + (b + c)
  {
  }

  lemma RingShift(files: seq<string>, start: nat, i: nat)
    requires files != []
    ensures RingAt(files, start + 1, i) == RingAt(files, start, i + 1)
  {
    assert start + 1 + i == start + (i + 1);
  }

  /** Files the ring does not pass may change, and the start may move by a full turn. */
  lemma {:induction false} RingFrame(files: seq<string>, start: nat, files': seq<string>, start': nat, k: nat)
    requires files != [] && files' != []
    requires forall i: nat | i < k :: RingAt(files', start', i) == RingAt(files, start, i)
    ensures Ring(files', start', k) == Ring(files, start, k)
  {
    if k == 0 {
    } else {
      RingFrame(files, start, files', start', k - 1);
    }
  }

  /** After the turn to `next`, the other files are passed in the same order. */
  lemma NextPasses(index: nat, n: nat, i: nat)
    requires index < n && i < n - 1
    ensures (Next(index, n) + 1 + i) % n == (index + 2 + i) % n != Next(index, n)
  {
    Wraps(index + 1, n);
    Wraps(Next(index, n) + 1 + i, n);
    if index + 1 == n {
      assert index + 2 + i == n + (1 + i);
      Wraps(index + 2 + i, n);
    } else {
      Wraps(index + 2 + i, n);
    }
  }

  /** Rotating drops the oldest file from the merged read and adds an empty one. */
  lemma RotateMerged(s: Store, limit: int)
    requires WellFormed(s) && Rotates(s, limit)
    ensures Merged(s) == s.files[Next(s.index, |s.files|)] + Merged(CheckSizeAndRotate(s, limit))
  {
    hide RingAt, Ring;
    var n, next, r := |s.files|, Next(s.index, |s.files|), CheckSizeAndRotate(s, limit);
    RingFirst(s.files, s.index + 1, n - 1);
    NextIs(s.index, n);
    RingAtIs(s.files, s.index + 1, 0);
    RotateRing(s.files, s.index);
    RingLast(r.files, next + 1, n - 1);
    RingAtIs(r.files, next + 1, n - 1);
  }

  lemma NextIs(i: nat, n: nat)
    requires i < n
    ensures Next(i, n) == if i + 1 < n then i + 1 else 0
  {
    Wraps(i + 1, n);
  }

  /** The files after the next one, in the old and in the new order. */
  lemma RotateRing(files: seq<string>, index: nat)
    requires index < |files|
    ensures var n, next := |files|, Next(index, |files|);
            Ring(files[next := ""], next + 1, n - 1) == Ring(files, index + 2, n - 1)
  {
    hide Ring;
    var n, next := |files|, Next(index, |files|);
    var from, from' := index + 2, next + 1;
    forall i: nat | i < n - 1
      ensures RingAt(files[next := ""], from', i) == RingAt(files, from, i)
    {
      NextPasses(index, n, i);
    }
    RingFrame(files, from, files[next := ""], from', n - 1);
  }

  /** Text written to the current file comes out last. */
  lemma WriteMerged(s: Store, text: string)
    requires WellFormed(s)
    ensures Merged(Write(s, s.index, text)) == Merged(s) + text
  {
    var n, r := |s.files|, Write(s, s.index, text);
    var from := s.index + 1;
    forall i: nat | i < n - 1
      ensures RingAt(r.files, from, i) == RingAt(s.files, from, i)
    {
      Wraps(s.index + 1 + i, n);
    }
    RingFrame(s.files, s.index + 1, r.files, s.index + 1, n - 1);
    Wraps(s.index + n, n);
    assert RingAt(r.files, s.index + 1, n - 1) == RingAt(s.files, s.index + 1, n - 1) + text;
  }

  lemma {:induction false} EmptyRing(files: seq<string>, start: nat, k: nat)
    requires files != [] && forall i | 0 <= i < |files| :: files[i] == ""
    ensures Ring(files, start, k) == ""
  {
    if k == 0 {
    } else {
      EmptyRing(files, start, k - 1);
    }
  }

  lemma {:induction false} RingHolds(files: seq<string>, start: nat, k: nat, i: nat)
    requires files != [] && i < k
    ensures |RingAt(files, start, i)| <= |Ring(files, start, k)|
  {
    if i == k - 1 {
    } else {
      RingHolds(files, start, k - 1, i);
    }
  }

  /** Every file is in the merged read. */
  lemma MergedHolds(s: Store, f: nat)
    requires WellFormed(s) && f < |s.files|
    ensures |s.files[f]| <= |Merged(s)|
  {
    var n, from := |s.files|, s.index + 1;
    var i := if f >= from then f - from else f + n - from;
    Wraps(from + i, n);
    RingHolds(s.files, from, n, i);
  }

  /** A clear leaves nothing to read if and only if no file whose flag is set held text. */
  lemma ClearIff(s: Store)
    requires WellFormed(s)
    ensures Merged(ClearAll(s)) == "" <==> Clean(s)
  {
    var c := ClearAll(s);
    if Clean(s) {
      EmptyRing(c.files, c.index + 1, |c.files|);
    } else {
      var i :| 0 <= i < |s.files| && s.flags[i] != 0 && s.files[i] != "";
      MergedHolds(c, i);
    }
  }

  /** At most the file `f` holds text. */
  predicate Only(s: Store, f: nat) {
    forall i | 0 <= i < |s.files| && i != f :: s.files[i] == ""
  }

  /** A ring with one file that may hold text reads as that file, once it is passed. */
  lemma {:induction false} RingOne(files: seq<string>, start: nat, k: nat, at: nat)
    requires files != [] && forall i: nat | i < k && i != at :: RingAt(files, start, i) == ""
    ensures Ring(files, start, k) == if at < k then RingAt(files, start, at) else ""
  {
    hide RingAt;
    if k == 0 {
    } else {
      RingOne(files, start, k - 1, at);
    }
  }

  lemma RingAtIs(files: seq<string>, start: nat, i: nat)
    requires files != [] && start + i < 2 * |files|
    ensures RingAt(files, start, i) == files[if start + i < |files| then start + i else start + i - |files|]
  {
    Wraps(start + i, |files|);
  }

  lemma OnlyMerged(s: Store, f: nat)
    requires WellFormed(s) && f < |s.files| && Only(s, f)
    ensures Merged(s) == s.files[f]
  {
    var n, from := |s.files|, s.index + 1;
    var at := if f >= from then f - from else f + n - from;
    hide RingAt;
    RingAtIs(s.files, from, at);
    forall i: nat | i < n && i != at
      ensures RingAt(s.files, from, i) == ""
    {
      RingAtIs(s.files, from, i);
    }
    RingOne(s.files, from, n, at);
  }

  lemma CheckKeepsSuffix(s: Store, limit: int, history: string)
    requires WellFormed(s) && IsSuffix(Merged(s), history)
    ensures IsSuffix(Merged(CheckSizeAndRotate(s, limit)), history)
  {
    if Rotates(s, limit) {
      RotateMerged(s, limit);
      SuffixShrinks(s.files[Next(s.index, |s.files|)], Merged(CheckSizeAndRotate(s, limit)), history);
    }
  }

  // ----- What is still held after k rotations -------------------------------------------------------

  function Back(i: nat, j: nat, n: nat): nat
    requires i < n && j <= n
  {
    (i + n - j) % n
  }

  function MinNat(a: nat, b: nat): nat { if a < b then a else b }

  /** The `min(k, n - 1)` files before the current one are full. */
  ghost predicate FullBehind(s: Store, k: nat, limit: int)
    requires WellFormed(s)
  {
    forall j | 1 <= j <= MinNat(k, |s.files| - 1) :: |s.files[Back(s.index, j, |s.files|)]| >= limit
  }

  lemma BackFromNext(i: nat, j: nat, n: nat)
    requires i < n && 1 <= j <= n - 1
    ensures Back(Next(i, n), j, n) == (if j == 1 then i else Back(i, j - 1, n))
    ensures Back(Next(i, n), j, n) != Next(i, n)
  {
    Wraps(i + 1, n);
    Wraps(Next(i, n) + n - j, n);
    Wraps(i + n - (j - 1), n);
  }

  lemma CheckKeepsFull(s: Store, k: nat, limit: int)
    requires WellFormed(s) && FullBehind(s, k, limit)
    ensures FullBehind(CheckSizeAndRotate(s, limit), k + if Rotates(s, limit) then 1 else 0, limit)
  {
    if Rotates(s, limit) {
      var n, r := |s.files|, CheckSizeAndRotate(s, limit);
      forall j | 1 <= j <= MinNat(k + 1, n - 1)
        ensures |r.files[Back(r.index, j, n)]| >= limit
      {
        BackFromNext(s.index, j, n);
        if j > 1 {
          assert |s.files[Back(s.index, j - 1, n)]| >= limit;
        }
      }
    }
  }

  /** The last `m` of the files before the current one are full. */
  lemma {:induction false} RingLength(s: Store, m: nat, limit: nat, k: nat)
    requires WellFormed(s) && m <= |s.files| - 1 && k <= |s.files| - 1
    requires forall j | 1 <= j <= m :: |s.files[Back(s.index, j, |s.files|)]| >= limit
    ensures |Ring(s.files, s.index + 1, k)| >= (if k + m <= |s.files| - 1 then 0 else k + m - (|s.files| - 1)) * limit
  {
    var n := |s.files|;
    if k == 0 || k + m <= n - 1 {
    } else {
      RingLength(s, m, limit, k - 1);
      var j := n - k;
      assert s.index + 1 + k - 1 == s.index + n - j;
      assert Back(s.index, j, n) == (s.index + n - j) % n;
      assert |RingAt(s.files, s.index + 1, k - 1)| >= limit;
      var before := k - 1 + m - (n - 1);
      assert (before + 1) * limit == before * limit + limit;
    }
  }

  /** Whatever sessions overlap and whenever files are cleared. */
  lemma {:induction false} FullAfter(n: nat, acts: seq<Act>, limit: int)
    requires n > 0
    ensures var c := After(n, acts, limit); FullBehind(c.store, c.rotations, limit)
  {
    if acts == [] {
    } else {
      FullAfter(n, acts[..|acts| - 1], limit);
      DoKeepsFull(After(n, acts[..|acts| - 1], limit), acts[|acts| - 1], limit);
    }
  }

  lemma DoKeepsFull(c: Log, a: Act, limit: int)
    requires Sane(c) && FullBehind(c.store, c.rotations, limit)
    ensures FullBehind(Do(c, a, limit).store, Do(c, a, limit).rotations, limit)
  {
    match a {
      case Start(_) => CheckKeepsFull(c.store, c.rotations, limit);
      case Stop(_) => CheckKeepsFull(Released(c.store), c.rotations, limit);
      case _ =>
    }
  }

  /**
   After k rotations since the last clear the storage still holds the min(k, n - 1) last full files,
   so that much text, however sessions overlap and whenever files are cleared.
   */
  lemma FullFilesKept(n: nat, acts: seq<Act>, limit: nat)
    requires n > 0
    ensures var c := After(n, acts, limit);
            && FullBehind(c.store, c.rotations, limit)
            && |Merged(c.store)| >= MinNat(c.rotations, n - 1) * limit
  {
    hide After, Ring, Back;
    FullAfter(n, acts, limit);
    var c := After(n, acts, limit);
    RingLength(c.store, MinNat(c.rotations, n - 1), limit, n - 1);
    RingGrows(c.store.files, c.store.index + 1, n - 1);
  }

  lemma RingGrows(files: seq<string>, start: nat, k: nat)
    requires files != []
    ensures |Ring(files, start, k)| <= |Ring(files, start, k + 1)|
  {
  }

  // ----- The storage's promise ---------------------------------------------------------------------------

  /** The merged read is the end of everything written since the last clear. */
  predicate Kept(c: Log)
    requires WellFormed(c.store)
  {
    IsSuffix(Merged(c.store), c.history)
  }

  /** At most one session, whose file is the current one or the only one that may hold text. */
  ghost predicate InOrder(c: Log) {
    && Sane(c)
    && (forall id, id' | id in c.held && id' in c.held :: id == id')
    && (forall id | id in c.held :: c.held[id] == c.store.index || Only(c.store, c.held[id]))
  }

  lemma AppendKeeps(c: Log, id: nat, text: string, limit: int)
    requires InOrder(c) && Kept(c)
    ensures InOrder(Do(c, Append(id, text), limit)) && Kept(Do(c, Append(id, text), limit))
  {
    if id in c.held && id !in c.closed {
      SuffixGrows(Merged(c.store), c.history, text);
      if c.held[id] == c.store.index {
        WriteMerged(c.store, text);
      } else {
        OnlyMerged(c.store, c.held[id]);
        OnlyMerged(Write(c.store, c.held[id], text), c.held[id]);
      }
    }
  }

  lemma DoKeepsOrder(c: Log, a: Act, limit: int)
    requires InOrder(c) && Kept(c)
    requires a.Start? ==> c.held == map[]
    requires a == ClearFiles ==> Clean(c.store)
    ensures InOrder(Do(c, a, limit)) && Kept(Do(c, a, limit))
  {
    hide Ring;
    match a {
      case Start(id) =>
        CheckKeepsSuffix(c.store, limit, c.history);
        assert Merged(Enter(c.store, limit)) == Merged(CheckSizeAndRotate(c.store, limit));
      case Append(id, text) =>
        AppendKeeps(c, id, text, limit);
      case Stop(id) =>
        assert Merged(Released(c.store)) == Merged(c.store);
        CheckKeepsSuffix(Released(c.store), limit, c.history);
      case ClearFiles =>
        ClearIff(c.store);
    }
  }

  lemma FreshIsKept(n: nat)
    requires n > 0
    ensures InOrder(Fresh(n)) && Kept(Fresh(n))
  {
    EmptyRing(Fresh(n).store.files, 1, n);
  }

  lemma {:induction false} CleanRunsKeep(n: nat, acts: seq<Act>, limit: int)
    requires n > 0 && Alone(n, acts, limit) && ClearsAreClean(n, acts, limit)
    ensures InOrder(After(n, acts, limit)) && Kept(After(n, acts, limit))
  {
    hide InOrder, Kept, Clean, Do;
    if acts == [] {
      FreshIsKept(n);
    } else {
      var init := acts[..|acts| - 1];
      forall k | 0 <= k < |init| {
        BeforeInit(n, acts, limit, k);
      }
      CleanRunsKeep(n, init, limit);
      DoKeepsOrder(After(n, init, limit), acts[|acts| - 1], limit);
    }
  }

  /**
   In a run of sessions that do not overlap every append is at the end, so the clears alone decide:
   the promise is kept at every moment if and only if no clear finds text in a file whose flag is set.
   */
  lemma PromiseAloneIff(n: nat, acts: seq<Act>, limit: int)
    requires n > 0 && Alone(n, acts, limit)
    ensures (forall k | 0 <= k <= |acts| :: Kept(Before(n, acts, limit, k))) <==> ClearsAreClean(n, acts, limit)
  {
    hide Kept, Clean, Before, Alone;
    if ClearsAreClean(n, acts, limit) {
      forall k | 0 <= k <= |acts|
        ensures Kept(Before(n, acts, limit, k))
      {
        PrefixAlone(n, acts, limit, k);
      }
    } else {
      var k :| 0 <= k < |acts| && acts[k] == ClearFiles && !Clean(Before(n, acts, limit, k).store);
      UncleanBreaks(n, acts, limit, k);
      assert !Kept(Before(n, acts, limit, k + 1));
    }
  }

  lemma PrefixAlone(n: nat, acts: seq<Act>, limit: int, k: nat)
    requires n > 0 && Alone(n, acts, limit) && ClearsAreClean(n, acts, limit) && k <= |acts|
    ensures Kept(Before(n, acts, limit, k))
  {
    hide Kept, Clean;
    forall i | 0 <= i < k
      ensures Before(n, acts[..k], limit, i) == Before(n, acts, limit, i)
    {
      BeforePrefix(n, acts, limit, k, i);
    }
    CleanRunsKeep(n, acts[..k], limit);
  }

  lemma UncleanBreaks(n: nat, acts: seq<Act>, limit: int, k: nat)
    requires n > 0 && k < |acts| && acts[k] == ClearFiles && !Clean(Before(n, acts, limit, k).store)
    ensures !Kept(Before(n, acts, limit, k + 1))
  {
    hide Clean, Before;
    BeforeNext(n, acts, limit, k);
    ClearIff(Before(n, acts, limit, k).store);
  }

  // ----- Any run at all ----------------------------------------------------------------------------------

  /** How many files come after `fd` in the merged read. */
  function Behind(s: Store, fd: nat): nat
    requires WellFormed(s) && fd < |s.files|
  {
    if fd <= s.index then s.index - fd else s.index + |s.files| - fd
  }

  /** What they hold. */
  function Later(s: Store, fd: nat): string
    requires WellFormed(s) && fd < |s.files|
  {
    Ring(s.files, fd + 1, Behind(s, fd))
  }

  function Earlier(s: Store, fd: nat): string
    requires WellFormed(s) && fd < |s.files|
  {
    Ring(s.files, s.index + 1, |s.files| - 1 - Behind(s, fd))
  }

  lemma {:induction false} RingSplit(files: seq<string>, start: nat, a: nat, b: nat)
    requires files != []
    ensures Ring(files, start, a + b) == Ring(files, start, a) + Ring(files, start + a, b)
  {
    hide RingAt;
    if b == 0 {
    } else {
      RingSplit(files, start, a, b - 1);
      RingMoved(files, start, a, b - 1);
    }
  }

  lemma RingMoved(files: seq<string>, start: nat, a: nat, i: nat)
    requires files != []
    ensures RingAt(files, start + a, i) == RingAt(files, start, a + i)
  {
    assert start + a + i == start + (a + i);
  }

  /** The merged read around one file. */
  lemma MergedSplit(s: Store, fd: nat)
    requires WellFormed(s) && fd < |s.files|
    ensures Merged(s) == Earlier(s, fd) + s.files[fd] + Later(s, fd)
  {
    hide RingAt, Ring;
    var n, behind, from := |s.files|, Behind(s, fd), s.index + 1;
    var p, after := n - 1 - behind, fd + 1;
    var tail := from + p + 1;
    RingSplit(s.files, from, p, behind + 1);
    RingFirst(s.files, from + p, behind);
    RingAtIs(s.files, from + p, 0);
    assert p + (behind + 1) == n;
    forall i: nat | i < behind
      ensures RingAt(s.files, after, i) == RingAt(s.files, tail, i)
    {
      RingAtIs(s.files, fd + 1, i);
      RingAtIs(s.files, from + p + 1, i);
    }
    RingFrame(s.files, from + p + 1, s.files, fd + 1, behind);
    assert Earlier(s, fd) + (s.files[fd] + Later(s, fd)) == Earlier(s, fd) + s.files[fd] + Later(s, fd);
  }

  /** A write changes nothing before or after its file. */
  lemma WriteAround(s: Store, fd: nat, text: string)
    requires WellFormed(s) && fd < |s.files|
    ensures Earlier(Write(s, fd, text), fd) == Earlier(s, fd) && Later(Write(s, fd, text), fd) == Later(s, fd)
  {
    hide RingAt, Ring;
    var n, r, from, after := |s.files|, Write(s, fd, text), s.index + 1, fd + 1;
    forall i: nat | i < n - 1 - Behind(s, fd)
      ensures RingAt(r.files, from, i) == RingAt(s.files, from, i)
    {
      RingAtIs(s.files, from, i);
      RingAtIs(r.files, from, i);
    }
    RingFrame(s.files, from, r.files, from, n - 1 - Behind(s, fd));
    forall i: nat | i < Behind(s, fd)
      ensures RingAt(r.files, after, i) == RingAt(s.files, after, i)
    {
      RingAtIs(s.files, fd + 1, i);
      RingAtIs(r.files, fd + 1, i);
    }
    RingFrame(s.files, fd + 1, r.files, fd + 1, Behind(s, fd));
  }

  lemma SuffixIff(a: string, b: string, h: string, text: string)
    requires IsSuffix(a + b, h)
    ensures IsSuffix(a + text + b, h + text) <==> text + b == b + text
  {
    var n := |h| + |text| - |a + text + b|;
    assert (h + text)[n..] == (a + b) + text == a + (b + text);
    assert a + text + b == a + (text + b);
    Cancel(a, text + b, b + text);
  }

  /**
   Appending to the file `fd` keeps the promise if and only if the text and what stands after the
   file may change places: always at the end of the ring, where nothing does.
   */
  lemma WriteIff(s: Store, fd: nat, text: string, history: string)
    requires WellFormed(s) && fd < |s.files| && IsSuffix(Merged(s), history)
    ensures IsSuffix(Merged(Write(s, fd, text)), history + text) <==> text + Later(s, fd) == Later(s, fd) + text
  {
    hide Earlier, Later, Merged, IsSuffix;
    var r := Write(s, fd, text);
    MergedSplit(s, fd);
    MergedSplit(r, fd);
    WriteAround(s, fd, text);
    var a := Earlier(s, fd) + s.files[fd];
    assert Earlier(s, fd) + (s.files[fd] + text) == a + text;
    SuffixIff(a, Later(s, fd), history, text);
  }

  /** What a caller can check before an act. */
  predicate Harmless(c: Log, a: Act)
    requires Sane(c)
  {
    match a
    case Append(id, text) =>
      id in c.held && id !in c.closed ==> text + Later(c.store, c.held[id]) == Later(c.store, c.held[id]) + text
    case ClearFiles => Clean(c.store)
    case _ => true
  }

  lemma DoKeepsIff(c: Log, a: Act, limit: int)
    requires Sane(c) && Kept(c)
    ensures Kept(Do(c, a, limit)) <==> Harmless(c, a)
  {
    hide Ring, Later;
    match a {
      case Start(id) =>
        CheckKeepsSuffix(c.store, limit, c.history);
        assert Merged(Enter(c.store, limit)) == Merged(CheckSizeAndRotate(c.store, limit));
      case Append(id, text) =>
        if id in c.held && id !in c.closed {
          WriteIff(c.store, c.held[id], text, c.history);
        }
      case Stop(id) =>
        assert Merged(Released(c.store)) == Merged(c.store);
        CheckKeepsSuffix(Released(c.store), limit, c.history);
      case ClearFiles =>
        ClearIff(c.store);
    }
  }

  lemma {:induction false} HarmlessRunsKeep(n: nat, acts: seq<Act>, limit: int)
    requires n > 0 && forall k | 0 <= k < |acts| :: Harmless(Before(n, acts, limit, k), acts[k])
    ensures Kept(After(n, acts, limit))
  {
    hide Harmless, Kept, Do;
    if acts == [] {
      FreshIsKept(n);
    } else {
      var init := acts[..|acts| - 1];
      forall k | 0 <= k < |init|
        ensures Harmless(Before(n, init, limit, k), init[k])
      {
        BeforeInit(n, acts, limit, k);
      }
      HarmlessRunsKeep(n, init, limit);
      DoKeepsIff(After(n, init, limit), acts[|acts| - 1], limit);
    }
  }

  lemma BeforePrefix(n: nat, acts: seq<Act>, limit: int, k: nat, i: nat)
    requires n > 0 && i <= k <= |acts|
    ensures Before(n, acts[..k], limit, i) == Before(n, acts, limit, i)
  {
    assert acts[..k][..i] == acts[..i];
  }

  lemma BeforeNext(n: nat, acts: seq<Act>, limit: int, k: nat)
    requires n > 0 && k < |acts|
    ensures Before(n, acts, limit, k + 1) == Do(Before(n, acts, limit, k), acts[k], limit)
  {
    assert acts[..k + 1][..k] == acts[..k];
  }

  /**
   The storage's promise over any run at all, however sessions overlap and whenever files are cleared:
   the merged read is at every moment the end of everything written since the last clear if and only
   if every append commutes with what stands after its file, and no clear finds text in a file whose
   flag is set.
   */
  lemma PromiseIff(n: nat, acts: seq<Act>, limit: int)
    requires n > 0
    ensures (forall k | 0 <= k <= |acts| :: Kept(Before(n, acts, limit, k))) <==>
            (forall k | 0 <= k < |acts| :: Harmless(Before(n, acts, limit, k), acts[k]))
  {
    hide Harmless, Kept, Before;
    if forall k | 0 <= k < |acts| :: Harmless(Before(n, acts, limit, k), acts[k]) {
      forall k | 0 <= k <= |acts|
        ensures Kept(Before(n, acts, limit, k))
      {
        PrefixKept(n, acts, limit, k);
      }
    }
    if forall k | 0 <= k <= |acts| :: Kept(Before(n, acts, limit, k)) {
      forall k | 0 <= k < |acts|
        ensures Harmless(Before(n, acts, limit, k), acts[k])
      {
        assert Kept(Before(n, acts, limit, k)) && Kept(Before(n, acts, limit, k + 1));
        BeforeNext(n, acts, limit, k);
        DoKeepsIff(Before(n, acts, limit, k), acts[k], limit);
      }
    }
  }

  lemma PrefixKept(n: nat, acts: seq<Act>, limit: int, k: nat)
    requires n > 0 && k <= |acts|
    requires forall i | 0 <= i < |acts| :: Harmless(Before(n, acts, limit, i), acts[i])
    ensures Kept(Before(n, acts, limit, k))
  {
    hide Harmless, Kept;
    forall i | 0 <= i < k
      ensures Harmless(Before(n, acts[..k], limit, i), acts[..k][i])
    {
      BeforePrefix(n, acts, limit, k, i);
    }
    HarmlessRunsKeep(n, acts[..k], limit);
  }

  lemma Cancel(prefix: string, a: string, b: string)
    ensures prefix + a == prefix + b <==> a == b
  {
    assert (prefix + a)[|prefix|..] == a && (prefix + b)[|prefix|..] == b;
  }

  /** Exactly the open session claims exactly the current file. */
  ghost predicate Claims(c: Log) {
    && Sane(c)
    && (forall id | id in c.held :: c.held == map[id := c.store.index])
    && forall i | 0 <= i < |c.store.flags| :: c.store.flags[i] == if c.held != map[] && i == c.store.index then 1 else 0
  }

  ghost predicate ClearsBetween(n: nat, acts: seq<Act>, limit: int)
    requires n > 0
  {
    forall k | 0 <= k < |acts| && acts[k] == ClearFiles :: Before(n, acts, limit, k).held == map[]
  }

  lemma DoKeepsClaims(c: Log, a: Act, limit: int)
    requires Claims(c) && (a.Start? || a == ClearFiles ==> c.held == map[])
    ensures Claims(Do(c, a, limit))
  {
    match a {
      case Stop(id) =>
        assert id in c.held ==> c.held - {id} == map[];
      case Start(id) =>
        assert c.held[id := CheckSizeAndRotate(c.store, limit).index]
            == map[id := CheckSizeAndRotate(c.store, limit).index];
      case _ =>
    }
  }

  lemma {:induction false} ClaimsAfter(n: nat, acts: seq<Act>, limit: int)
    requires n > 0 && Alone(n, acts, limit) && ClearsBetween(n, acts, limit)
    ensures Claims(After(n, acts, limit))
  {
    hide Claims, Do;
    if acts == [] {
      FreshClaims(n);
    } else {
      var init := acts[..|acts| - 1];
      forall k | 0 <= k < |init| {
        BeforeInit(n, acts, limit, k);
      }
      ClaimsAfter(n, init, limit);
      DoKeepsClaims(After(n, init, limit), acts[|acts| - 1], limit);
    }
  }

  lemma FreshClaims(n: nat)
    requires n > 0
    ensures Claims(Fresh(n))
  {
  }

  /**
   With clears between sessions only, the promise needs no further condition: at every moment of every
   run of sessions that do not overlap, the merged read is the end of everything written since the last clear.
   */
  lemma MergedIsSuffix(n: nat, acts: seq<Act>, limit: int)
    requires n > 0 && Alone(n, acts, limit) && ClearsBetween(n, acts, limit)
    ensures Kept(After(n, acts, limit))
  {
    forall k | 0 <= k < |acts| && acts[k] == ClearFiles
      ensures Clean(Before(n, acts, limit, k).store)
    {
      forall i | 0 <= i < k
        ensures Before(n, acts[..k], limit, i) == Before(n, acts, limit, i)
      {
        BeforePrefix(n, acts, limit, k, i);
      }
      ClaimsAfter(n, acts[..k], limit);
    }
    CleanRunsKeep(n, acts, limit);
  }

  /** How much has been appended since the last session started. */
  function Appended(acts: seq<Act>): nat {
    if acts == [] then 0
    else
      match acts[|acts| - 1]
      case Start(_) => 0
      case Append(_, text) => Appended(acts[..|acts| - 1]) + |text|
      case Stop(_) => Appended(acts[..|acts| - 1])
      case ClearFiles => Appended(acts[..|acts| - 1])
  }

  /** `most` bounds what a session writes, `now` what the last one has written. */
  ghost predicate Sized(c: Log, limit: int, now: nat, most: nat) {
    && Claims(c) && now <= most
    && (forall i | 0 <= i < |c.store.files| :: |c.store.files[i]| < limit + most)
    && |c.store.files[c.store.index]| < limit + if c.held == map[] then 0 else now
  }

  lemma DoKeepsSized(c: Log, a: Act, limit: int, now: nat, now': nat, most: nat)
    requires limit > 0 && Sized(c, limit, now, most) && now' <= most
    requires a.Start? || a == ClearFiles ==> c.held == map[]
    requires now' == if a.Start? then 0 else if a.Append? then now + |a.text| else now
    ensures Sized(Do(c, a, limit), limit, now', most)
  {
    DoKeepsClaims(c, a, limit);
    match a {
      case Start(_) => CheckMeans(c.store, limit);
      case Stop(id) =>
        CheckMeans(Released(c.store), limit);
        if id in c.held {
          assert c.held - {id} == map[];
          StopSized(c, id, limit);
        }
      case _ =>
    }
  }

  lemma StopSized(c: Log, id: nat, limit: int)
    requires limit > 0 && Claims(c) && id in c.held
    ensures var s := Do(c, Stop(id), limit).store; |s.files[s.index]| < limit
  {
    CheckBounds(Released(c.store), limit);
  }

  /**
   The ring bounds the log: over any run of sessions that do not overlap, with clears between them, no
   file outgrows the limit by more than a session writes, and between sessions the current file is below it.
   */
  lemma {:induction false} SizesBounded(n: nat, acts: seq<Act>, limit: int, most: nat)
    requires n > 0 && limit > 0 && Alone(n, acts, limit) && ClearsBetween(n, acts, limit)
    requires forall k | 0 <= k <= |acts| :: Appended(acts[..k]) <= most
    ensures var c := After(n, acts, limit);
            && (forall i | 0 <= i < n :: |c.store.files[i]| < limit + most)
            && (c.held == map[] ==> |c.store.files[c.store.index]| < limit)
  {
    SizedAfter(n, acts, limit, most);
  }

  lemma {:induction false} SizedAfter(n: nat, acts: seq<Act>, limit: int, most: nat)
    requires n > 0 && limit > 0 && Alone(n, acts, limit) && ClearsBetween(n, acts, limit)
    requires forall k | 0 <= k <= |acts| :: Appended(acts[..k]) <= most
    ensures Sized(After(n, acts, limit), limit, Appended(acts), most)
  {
    hide Sized, Do;
    if acts == [] {
      FreshSized(n, limit, most);
    } else {
      var init := acts[..|acts| - 1];
      forall k | 0 <= k < |init| {
        BeforeInit(n, acts, limit, k);
      }
      forall k | 0 <= k <= |init|
        ensures Appended(init[..k]) <= most
      {
        assert init[..k] == acts[..k];
      }
      SizedAfter(n, init, limit, most);
      assert acts[..|acts|] == acts;
      DoKeepsSized(After(n, init, limit), acts[|acts| - 1], limit, Appended(init), Appended(acts), most);
    }
  }

  lemma FreshSized(n: nat, limit: int, most: nat)
    requires n > 0 && limit > 0
    ensures Sized(Fresh(n), limit, 0, most)
  {
    FreshClaims(n);
  }

  // ----- Runs that break it ------------------------------------------------------------------------------

  lemma AfterOne(n: nat, acts: seq<Act>, a: Act, limit: int)
    requires n > 0
    ensures After(n, acts + [a], limit) == Do(After(n, acts, limit), a, limit)
  {
    assert (acts + [a])[..|acts|] == acts;
  }

  /** One session on `n` files, after it has written. */
  lemma OneSession(n: nat, text: string, limit: int)
    requires n > 0 && limit > 0
    ensures var c := After(n, [Start(0), Append(0, text)], limit);
            && c.store == Store(Fresh(n).store.files[0 := text], Fresh(n).store.flags[0 := 1], 0)
            && c.held == map[0 := 0] && c.closed == {} && c.history == text && c.rotations == 0
  {
    hide Fresh;
    FreshMeans(n);
    AfterNone(n, limit);
    AfterOne(n, [], Start(0), limit);
    AfterOne(n, [Start(0)], Append(0, text), limit);
    var c := After(n, [Start(0)], limit);
    assert !Rotates(Fresh(n).store, limit) && c.store == Fresh(n).store.(flags := Fresh(n).store.flags[0 := 1]);
    assert "" + text == text;
  }

  lemma AfterNone(n: nat, limit: int)
    requires n > 0
    ensures After(n, [], limit) == Fresh(n)
  {
  }

  lemma FreshMeans(n: nat)
    requires n > 0
    ensures var s := Fresh(n).store;
            && Sane(Fresh(n)) && |s.files| == n && s.index == 0
            && (forall i | 0 <= i < n :: s.files[i] == "" && s.flags[i] == 0)
    ensures Fresh(n).held == map[] && Fresh(n).closed == {} && Fresh(n).history == "" && Fresh(n).rotations == 0
  {
  }

  /** A clear inside a session that has written leaves its text, and nothing was written since the clear. */
  lemma ClearInsideBreaks(n: nat, text: string, limit: int)
    requires n > 0 && limit > 0 && text != ""
    ensures !Kept(After(n, [Start(0), Append(0, text), ClearFiles], limit))
  {
    OneSession(n, text, limit);
    AfterOne(n, [Start(0), Append(0, text)], ClearFiles, limit);
    assert [Start(0), Append(0, text)] + [ClearFiles] == [Start(0), Append(0, text), ClearFiles];
    var c := After(n, [Start(0), Append(0, text)], limit);
    assert c.store.flags[0] == 1 && c.store.files[0] == text;
    ClearIff(c.store);
  }

  /** Two sessions, the second one started after the first has filled its file. */
  predicate Two(c: Log) {
    && c.store == Store(["x", ""], [1, 1], 1) && c.held == map[0 := 0, 1 := 1] && c.closed == {} && c.history == "x"
  }

  /** One session on two files, its file full. */
  predicate One(b: Log) {
    b.store == Store(["x", ""], [1, 0], 0) && b.held == map[0 := 0] && b.closed == {} && b.history == "x"
  }

  lemma FirstSession()
    ensures One(After(2, [Start(0), Append(0, "x")], 1))
  {
    hide After, Fresh;
    OneSession(2, "x", 1);
    FreshMeans(2);
    assert Fresh(2).store.files[0 := "x"] == ["x", ""];
    assert Fresh(2).store.flags[0 := 1] == [1, 0];
  }

  lemma TwoSessions()
    ensures Two(After(2, [Start(0), Append(0, "x"), Start(1)], 1))
  {
    hide After, Do, One;
    FirstSession();
    AfterOne(2, [Start(0), Append(0, "x")], Start(1), 1);
    assert [Start(0), Append(0, "x")] + [Start(1)] == [Start(0), Append(0, "x"), Start(1)];
    SecondTurns(After(2, [Start(0), Append(0, "x")], 1));
  }

  lemma SecondTurns(b: Log)
    requires Sane(b) && One(b)
    ensures Two(Do(b, Start(1), 1))
  {
    assert Holders(b.held, 1) == {};
    assert Enter(b.store, 1) == Store(["x", ""], [1, 1], 1);
  }

  /** Sessions that overlap can put newer text before older text. */
  lemma OverlapBreaks()
    ensures !Kept(After(2, [Start(0), Append(0, "x"), Start(1), Append(1, "b"), Append(0, "a")], 1))
  {
    TwoSessions();
    var acts := [Start(0), Append(0, "x"), Start(1)];
    AfterOne(2, acts, Append(1, "b"), 1);
    AfterOne(2, acts + [Append(1, "b")], Append(0, "a"), 1);
    assert acts + [Append(1, "b")] + [Append(0, "a")]
        == [Start(0), Append(0, "x"), Start(1), Append(1, "b"), Append(0, "a")];
    hide After, Do;
    NewerFirst(After(2, acts, 1));
  }

  lemma NewerFirst(c: Log)
    requires Sane(c) && Two(c)
    ensures !Kept(Do(Do(c, Append(1, "b"), 1), Append(0, "a"), 1))
  {
    var d := Do(Do(c, Append(1, "b"), 1), Append(0, "a"), 1);
    assert d.history == "x" + "b" + "a";
    TwoFiles(d.store);
    assert d.history[1] == 'b' && Merged(d.store)[1] == 'a';
  }

  lemma TwoFiles(s: Store)
    requires WellFormed(s) && |s.files| == 2 && s.index == 1
    ensures Merged(s) == s.files[0] + s.files[1]
  {
    assert RingAt(s.files, 2, 0) == s.files[0] && RingAt(s.files, 2, 1) == s.files[1];
    assert Ring(s.files, 2, 1) == "" + s.files[0];
  }

  // ----- The access flags --------------------------------------------------------------------------------

  function Sum(s: seq<int>): int {
    if s == [] then 0 else Sum(s[..|s| - 1]) + s[|s| - 1]
  }

  lemma {:induction false} SumUpdate(s: seq<int>, i: nat, v: int)
    requires i < |s|
    ensures Sum(s[i := v]) == Sum(s) - s[i] + v
  {
    var n := |s|;
    if i < n - 1 {
      assert s[i := v][..n - 1] == s[..n - 1][i := v];
      SumUpdate(s[..n - 1], i, v);
    } else {
      assert s[i := v][..n - 1] == s[..n - 1];
    }
  }

  lemma {:induction false} SumZero(n: nat)
    ensures Sum(seq(n, _ => 0)) == 0
  {
    if n == 0 {
    } else {
      assert seq(n, _ => 0)[..n - 1] == seq(n - 1, _ => 0);
      SumZero(n - 1);
    }
  }

  lemma DoKeepsSum(c: Log, a: Act, limit: int)
    requires Sane(c) && Sum(c.store.flags) == |c.held|
    ensures Sum(Do(c, a, limit).store.flags) == |Do(c, a, limit).held|
  {
    hide Sum, Do;
    match a {
      case Start(id) => StartKeepsSum(c, id, limit);
      case Append(id, text) => AppendKeepsSum(c, id, text, limit);
      case Stop(id) => StopKeepsSum(c, id, limit);
      case ClearFiles => ClearKeepsSum(c, limit);
    }
  }

  lemma StartKeepsSum(c: Log, id: nat, limit: int)
    requires Sane(c) && Sum(c.store.flags) == |c.held|
    ensures Sum(Do(c, Start(id), limit).store.flags) == |Do(c, Start(id), limit).held|
  {
    hide Sum, CheckSizeAndRotate, ClosedBy, Turned;
    CheckSpares(c.store, limit);
    var at := CheckSizeAndRotate(c.store, limit).index;
    SumUpdate(c.store.flags, at, c.store.flags[at] + 1);
  }

  lemma AppendKeepsSum(c: Log, id: nat, text: string, limit: int)
    requires Sane(c) && Sum(c.store.flags) == |c.held|
    ensures Sum(Do(c, Append(id, text), limit).store.flags) == |Do(c, Append(id, text), limit).held|
  {
    hide Sum;
  }

  lemma StopKeepsSum(c: Log, id: nat, limit: int)
    requires Sane(c) && Sum(c.store.flags) == |c.held|
    ensures Sum(Do(c, Stop(id), limit).store.flags) == |Do(c, Stop(id), limit).held|
  {
    hide Sum, CheckSizeAndRotate, ClosedBy, Turned;
    CheckSpares(Released(c.store), limit);
    SumUpdate(c.store.flags, c.store.index, c.store.flags[c.store.index] - 1);
    assert id in c.held ==> c.held.Keys == (c.held - {id}).Keys + {id};
  }

  lemma ClearKeepsSum(c: Log, limit: int)
    requires Sane(c) && Sum(c.store.flags) == |c.held|
    ensures Sum(Do(c, ClearFiles, limit).store.flags) == |Do(c, ClearFiles, limit).held|
  {
    hide Sum;
  }

  lemma CheckSpares(s: Store, limit: int)
    requires WellFormed(s)
    ensures CheckSizeAndRotate(s, limit).flags == s.flags
    ensures WellFormed(CheckSizeAndRotate(s, limit)) && |CheckSizeAndRotate(s, limit).files| == |s.files|
  {
  }

  /** The access flags always add up to the number of open sessions ... */
  lemma {:induction false} FlagsAddUp(n: nat, acts: seq<Act>, limit: int)
    requires n > 0
    ensures Sum(After(n, acts, limit).store.flags) == |After(n, acts, limit).held|
  {
    if acts == [] {
      SumZero(n);
    } else {
      FlagsAddUp(n, acts[..|acts| - 1], limit);
      DoKeepsSum(After(n, acts[..|acts| - 1], limit), acts[|acts| - 1], limit);
    }
  }

  /** The flag of each file is the number of open sessions that were handed it. */
  ghost predicate FlagsExact(c: Log) {
    && Sane(c)
    && forall i | 0 <= i < |c.store.flags| :: c.store.flags[i] == |Holders(c.held, i)|
  }

  /**
   ... but file by file they are right after a session ends exactly when the current file is still
   the one that session was handed: the flag taken down is the current file's.
   */
  lemma StopExactIff(c: Log, id: nat, limit: int)
    requires FlagsExact(c) && id in c.held
    ensures FlagsExact(Do(c, Stop(id), limit)) <==> c.held[id] == c.store.index
  {
    var c', fd := Do(c, Stop(id), limit), c.held[id];
    forall i: nat
      ensures Holders(c'.held, i) == if i == fd then Holders(c.held, i) - {id} else Holders(c.held, i)
    {
    }
    assert id in Holders(c.held, fd);
    if fd != c.store.index {
      assert c'.store.flags[fd] == c.store.flags[fd] != |Holders(c'.held, fd)|;
    }
  }

  /** Sessions get there: the first of two ends after the second has turned to the next file. */
  lemma StopBreaks()
    ensures var c := After(2, [Start(0), Append(0, "x"), Start(1)], 1);
            FlagsExact(c) && !FlagsExact(Do(c, Stop(0), 1))
  {
    TwoSessions();
    var c := After(2, [Start(0), Append(0, "x"), Start(1)], 1);
    hide After;
    assert Holders(c.held, 0) == {0} && Holders(c.held, 1) == {1};
    StopExactIff(c, 0, 1);
  }

  /** The flag of the next file is set while file 0 is the current one. */
  predicate Stuck(c: Log) {
    WellFormed(c.store) && |c.store.files| >= 2 && c.store.index == 0 && c.store.flags[1] != 0
  }

  lemma DoKeepsStuck(c: Log, a: Act, limit: int)
    requires Sane(c) && Stuck(c)
    ensures Stuck(Do(c, a, limit)) && Do(c, a, limit).rotations <= c.rotations
  {
    hide Rotates;
    NoTurn(c.store, limit);
    NoTurn(Released(c.store), limit);
  }

  lemma NoTurn(s: Store, limit: int)
    requires WellFormed(s) && |s.files| >= 2 && s.index == 0 && s.flags[1] != 0
    ensures !Rotates(s, limit) && CheckSizeAndRotate(s, limit) == s
  {
  }

  function DoAll(c: Log, acts: seq<Act>, limit: int): (c': Log)
    requires Sane(c)
    ensures Sane(c')
  {
    if acts == [] then c else Do(DoAll(c, acts[..|acts| - 1], limit), acts[|acts| - 1], limit)
  }

  /** Whatever happens then, it stays so, and no rotation ever bounds file 0 again. */
  lemma {:induction false} StuckForever(c: Log, acts: seq<Act>, limit: int)
    requires Sane(c) && Stuck(c)
    ensures Stuck(DoAll(c, acts, limit)) && DoAll(c, acts, limit).rotations <= c.rotations
  {
    hide Do, Stuck;
    if acts == [] {
    } else {
      StuckForever(c, acts[..|acts| - 1], limit);
      DoKeepsStuck(DoAll(c, acts[..|acts| - 1], limit), acts[|acts| - 1], limit);
    }
  }

  lemma {:induction false} NewId(ids: set<nat>) returns (bound: nat)
    ensures forall x | x in ids :: x < bound
  {
    if ids == {} {
      bound := 0;
    } else {
      assert exists x: nat :: x in ids by {
        if forall x: nat :: x !in ids {
          assert false;
        }
      }
      var x: nat :| x in ids;
      var rest := NewId(ids - {x});
      bound := if x < rest then rest else x + 1;
      forall y | y in ids
        ensures y < bound
      {
        assert y == x || y in ids - {x};
      }
    }
  }

  /** One session that writes enough turns the ring from file 0 to file 1. */
  lemma SessionTurns(c: Log, id: nat, limit: int)
    requires Sane(c) && |c.store.files| >= 2 && c.store.index == 0 && c.store.flags[1] == 0 && id !in c.held
    requires !Rotates(c.store, limit)
    ensures var text := seq(if limit > 0 then limit else 0, _ => 'x');
            Do(Do(Do(c, Start(id), limit), Append(id, text), limit), Stop(id), limit).store.index == 1
  {
    var text := seq(if limit > 0 then limit else 0, _ => 'x');
    var d := Do(c, Start(id), limit);
    assert d.store == c.store.(flags := c.store.flags[0 := c.store.flags[0] + 1]) && d.held[id] == 0;
    var e := Do(d, Append(id, text), limit);
    assert |e.store.files[0]| >= limit && e.store.flags == d.store.flags && id in e.held;
    StopTurnsRing(e, id, limit);
  }

  lemma StopTurnsRing(c: Log, id: nat, limit: int)
    requires Sane(c) && |c.store.files| >= 2 && c.store.index == 0 && c.store.flags[1] == 0 && id in c.held
    requires |c.store.files[0]| >= limit
    ensures Do(c, Stop(id), limit).store.index == 1
  {
    assert Rotates(Released(c.store), limit);
  }

  lemma StartTurns(c: Log, id: nat, limit: int)
    requires Sane(c) && |c.store.files| >= 2 && c.store.index == 0 && id !in c.held && Rotates(c.store, limit)
    ensures Do(c, Start(id), limit).store.index == 1
  {
  }

  /** From file 0 the ring can turn again if and only if the flag of file 1 is not set. */
  lemma TurnsAgainIff(c: Log, limit: int)
    requires Sane(c) && |c.store.files| >= 2 && c.store.index == 0
    ensures (exists acts :: DoAll(c, acts, limit).store.index != 0) <==> c.store.flags[1] == 0
  {
    hide Do, DoAll, Rotates;
    if c.store.flags[1] != 0 {
      forall acts
        ensures DoAll(c, acts, limit).store.index == 0
      {
        StuckForever(c, acts, limit);
      }
    } else {
      var id := NewId(c.held.Keys);
      if Rotates(c.store, limit) {
        DoAllOne(c, Start(id), limit);
        StartTurns(c, id, limit);
        assert DoAll(c, [Start(id)], limit).store.index == 1;
      } else {
        var text := seq(if limit > 0 then limit else 0, _ => 'x');
        SessionTurns(c, id, limit);
        DoAllThree(c, Start(id), Append(id, text), Stop(id), limit);
        assert DoAll(c, [Start(id), Append(id, text), Stop(id)], limit).store.index == 1;
      }
    }
  }

  lemma DoAllOne(c: Log, a: Act, limit: int)
    requires Sane(c)
    ensures DoAll(c, [a], limit) == Do(c, a, limit)
  {
    assert [a][..0] == [];
    assert DoAll(c, [], limit) == c;
  }

  lemma DoAllThree(c: Log, a: Act, b: Act, d: Act, limit: int)
    requires Sane(c)
    ensures DoAll(c, [a, b, d], limit) == Do(Do(Do(c, a, limit), b, limit), d, limit)
  {
    hide Do;
    DoAllOne(c, a, limit);
    assert [a, b, d][..2] == [a, b] && [a, b][..1] == [a];
    assert DoAll(c, [a, b], limit) == Do(DoAll(c, [a], limit), b, limit);
  }

  /** One clear inside a session that writes to file 1 gets the ring there, with no session open any more. */
  lemma ClearInsideSticks()
    ensures var c := After(2, [Start(0), Append(0, "x"), Stop(0), Start(1), ClearFiles, Stop(1)], 1);
            Stuck(c) && c.held == map[]
  {
    var acts := [Start(0), Append(0, "x")];
    FirstSession();
    AfterOne(2, acts, Stop(0), 1);
    AfterOne(2, acts + [Stop(0)], Start(1), 1);
    AfterOne(2, acts + [Stop(0)] + [Start(1)], ClearFiles, 1);
    AfterOne(2, acts + [Stop(0)] + [Start(1)] + [ClearFiles], Stop(1), 1);
    assert acts + [Stop(0)] + [Start(1)] + [ClearFiles] + [Stop(1)]
        == [Start(0), Append(0, "x"), Stop(0), Start(1), ClearFiles, Stop(1)];
    var b, c := After(2, acts, 1), After(2, acts + [Stop(0)], 1);
    hide After;
    StopTurns(b);
    StartSticks(c);
  }

  lemma StopTurns(b: Log)
    requires Sane(b) && One(b)
    ensures Do(b, Stop(0), 1).store == Store(["x", ""], [0, 0], 1) && Do(b, Stop(0), 1).held == map[]
  {
    assert Released(b.store) == Store(["x", ""], [0, 0], 0);
  }

  lemma StartSticks(c: Log)
    requires Sane(c) && c.store == Store(["x", ""], [0, 0], 1) && c.held == map[]
    ensures var d := Do(Do(Do(c, Start(1), 1), ClearFiles, 1), Stop(1), 1); Stuck(d) && d.held == map[]
  {
    var d := Do(c, Start(1), 1);
    assert d.store == Store(["x", ""], [0, 1], 1) && d.held == map[1 := 1];
    var e := Do(d, ClearFiles, 1);
    assert e.store == Store(["", ""], [0, 1], 0) && e.held == map[1 := 1];
    hide ClearAll;
    assert Released(e.store) == Store(["", ""], [-1, 1], 0);
  }
}
