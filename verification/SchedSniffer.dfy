/** The scheduler-time table, kept by merging buffered frames into a grouped frame. */
module SchedSniffer {
  import opened Options
  import opened Grouping
  import Inbox

  datatype Key = Key(pid: int, tgid: int, cpu: int)
  type Times = Frame<Key, int>

  /** One merge of `_update_dataframe`. */
  function MergeInto(table: Times, frames: seq<Times>): Times {
    if frames == [] then table else Group(table + Concat(frames), PLUS)
  }

  function TableAfter(table: Times, merged: seq<seq<Times>>): Times {
    if merged == [] then table
    else MergeInto(TableAfter(table, merged[..|merged| - 1]), merged[|merged| - 1])
  }

  /** Merging in pieces gives the batch aggregate of everything merged. */
  lemma {:induction false} MergesAreBatch(table: Times, merged: seq<seq<Times>>)
    requires UniqueKeys(table)
    ensures TableAfter(table, merged) == Group(table + Concat(Inbox.Flatten(merged)), PLUS)
  {
    if merged == [] {
      GroupUnique(table, PLUS);
      assert table + Concat(Inbox.Flatten(merged)) == table;
    } else {
      var init, last := merged[..|merged| - 1], merged[|merged| - 1];
      MergesAreBatch(table, init);
      ConcatSplits(Inbox.Flatten(init), last);
      var before := table + Concat(Inbox.Flatten(init));
      assert table + Concat(Inbox.Flatten(merged)) == before + Concat(last);
      if last == [] {
        assert before + Concat(last) == before;
      } else {
        Regroup(before, Concat(last), PLUS);
      }
    }
  }

  /**
   For any interleaving of deliveries with one consumer's updates, the table is the batch aggregate
   by (pid, tgid, cpu) of exactly the frames merged so far, and those are a prefix of the deliveries.
   */
  lemma TableIsBatch(steps: seq<Inbox.Step<Times>>, b: Inbox.Box<Times>)
    requires Inbox.Runs(Inbox.Empty(), steps, b)
    ensures TableAfter([], b.merged) == Group(Concat(Inbox.Flatten(b.merged)), PLUS)
    ensures Inbox.Flatten(b.merged) <= b.delivered
  {
    Inbox.NothingLostOrDoubled(steps, b);
    MergesAreBatch([], b.merged);
    assert [] + Concat(Inbox.Flatten(b.merged)) == Concat(Inbox.Flatten(b.merged));
  }

  /** So every entry of the table is the sum of the raw records of its key. */
  lemma EntryIsSum(steps: seq<Inbox.Step<Times>>, b: Inbox.Box<Times>, k: Key)
    requires Inbox.Runs(Inbox.Empty(), steps, b)
    ensures UniqueKeys(TableAfter([], b.merged))
    ensures OrZero(Fold(TableAfter([], b.merged), k, PLUS)) == SumWhere(Concat(Inbox.Flatten(b.merged)), Is(k))
  {
    TableIsBatch(steps, b);
    GroupFolds(Concat(Inbox.Flatten(b.merged)), k, PLUS);
    FoldIsSum(Concat(Inbox.Flatten(b.merged)), k);
  }

  // ----- Queries ------------------------------------------------------------------------------------

  function Select(rows: Times, p: Key -> bool): Times {
    if rows == [] then []
    else Select(rows[..|rows| - 1], p) + if p(rows[|rows| - 1].0) then [rows[|rows| - 1]] else []
  }

  /** The rows of mapped CPUs, keyed by NUMA node; a CPU without a node drops out. */
  function ByNuma(rows: Times, cpuToNuma: map<int, int>): Frame<int, int> {
    if rows == [] then []
    else
      var r := rows[|rows| - 1];
      ByNuma(rows[..|rows| - 1], cpuToNuma) + if r.0.cpu in cpuToNuma then [(cpuToNuma[r.0.cpu], r.1)] else []
  }

  function NumaCpuTime(table: Times, p: Key -> bool, cpuToNuma: map<int, int>): Frame<int, int> {
    Group(ByNuma(Select(table, p), cpuToNuma), PLUS)
  }

  /** The keys that satisfy `p`, run on a mapped CPU, and whose node satisfies `q`. */
  function OnNodes(p: Key -> bool, cpuToNuma: map<int, int>, q: int -> bool): Key -> bool {
    (k: Key) => p(k) && k.cpu in cpuToNuma && q(cpuToNuma[k.cpu])
  }

  lemma {:induction false} NumaSums(rows: Times, p: Key -> bool, cpuToNuma: map<int, int>, q: int -> bool)
    ensures SumWhere(ByNuma(Select(rows, p), cpuToNuma), q) == SumWhere(rows, OnNodes(p, cpuToNuma, q))
  {
    if rows == [] {
    } else {
      var init, r := rows[..|rows| - 1], rows[|rows| - 1];
      NumaSums(init, p, cpuToNuma, q);
      if p(r.0) {
        assert Select(rows, p)[..|Select(rows, p)| - 1] == Select(init, p);
        if r.0.cpu in cpuToNuma {
          SumAppend(ByNuma(Select(init, p), cpuToNuma), (cpuToNuma[r.0.cpu], r.1), q);
        } else {
          assert ByNuma(Select(rows, p), cpuToNuma) == ByNuma(Select(init, p), cpuToNuma);
        }
      } else {
        assert Select(rows, p) == Select(init, p);
      }
    }
  }

  /**
   The per-NUMA times of a pid or tgid (any condition `p` on the key) add up, over any set `q` of
   nodes, to the raw recorded time on the CPUs of those nodes; over all nodes, on all mapped CPUs.
   */
  lemma NumaTimesConserve(raw: Times, p: Key -> bool, cpuToNuma: map<int, int>, q: int -> bool)
    ensures SumWhere(NumaCpuTime(Group(raw, PLUS), p, cpuToNuma), q) == SumWhere(raw, OnNodes(p, cpuToNuma, q))
  {
    GroupSums(ByNuma(Select(Group(raw, PLUS), p), cpuToNuma), q);
    NumaSums(Group(raw, PLUS), p, cpuToNuma, q);
    GroupSums(raw, OnNodes(p, cpuToNuma, q));
  }

  /** One node's entry is the raw time on its CPUs. */
  lemma NumaEntry(raw: Times, p: Key -> bool, cpuToNuma: map<int, int>, node: int)
    ensures OrZero(Fold(NumaCpuTime(Group(raw, PLUS), p, cpuToNuma), node, PLUS))
         == SumWhere(raw, OnNodes(p, cpuToNuma, Is(node)))
  {
    var rows := ByNuma(Select(Group(raw, PLUS), p), cpuToNuma);
    FoldIsSum(Group(rows, PLUS), node);
    NumaTimesConserve(raw, p, cpuToNuma, Is(node));
  }

  function OfPid(pid: int): Key -> bool {
    (k: Key) => k.pid == pid
  }

  function OfTgid(tgid: int): Key -> bool {
    (k: Key) => k.tgid == tgid
  }

  /** The time a process or thread was recorded for on the CPUs of one node. */
  function PidTimeOn(raw: Times, pid: int, cpuToNuma: map<int, int>, node: int): int {
    if raw == [] then 0
    else
      var (k, time) := raw[0];
      PidTimeOn(raw[1..], pid, cpuToNuma, node)
      + if k.pid == pid && k.cpu in cpuToNuma && cpuToNuma[k.cpu] == node then time else 0
  }

  function TgidTimeOn(raw: Times, tgid: int, cpuToNuma: map<int, int>, node: int): int {
    if raw == [] then 0
    else
      var (k, time) := raw[0];
      TgidTimeOn(raw[1..], tgid, cpuToNuma, node)
      + if k.tgid == tgid && k.cpu in cpuToNuma && cpuToNuma[k.cpu] == node then time else 0
  }

  lemma {:induction false} SumFirst(rows: Times, p: Key -> bool)
    requires rows != []
    ensures SumWhere(rows, p) == SumWhere(rows[1..], p) + if p(rows[0].0) then rows[0].1 else 0
  {
    if |rows| == 1 {
      assert rows[..0] == [] && rows[1..] == [];
    } else {
      var init := rows[..|rows| - 1];
      SumFirst(init, p);
      assert rows[1..][..|rows| - 2] == init[1..];
    }
  }

  /** Any history of updates later, a pid's time on a node is the sum of its raw records there ... */
  lemma {:induction false} PidTimeIs(raw: Times, pid: int, cpuToNuma: map<int, int>, node: int)
    ensures SumWhere(raw, OnNodes(OfPid(pid), cpuToNuma, Is(node))) == PidTimeOn(raw, pid, cpuToNuma, node)
    ensures OrZero(Fold(NumaCpuTime(Group(raw, PLUS), OfPid(pid), cpuToNuma), node, PLUS))
         == PidTimeOn(raw, pid, cpuToNuma, node)
  {
    NumaEntry(raw, OfPid(pid), cpuToNuma, node);
    if raw == [] {
    } else {
      SumFirst(raw, OnNodes(OfPid(pid), cpuToNuma, Is(node)));
      PidTimeIs(raw[1..], pid, cpuToNuma, node);
    }
  }

  /** ... and so is a thread group's. */
  lemma {:induction false} TgidTimeIs(raw: Times, tgid: int, cpuToNuma: map<int, int>, node: int)
    ensures SumWhere(raw, OnNodes(OfTgid(tgid), cpuToNuma, Is(node))) == TgidTimeOn(raw, tgid, cpuToNuma, node)
    ensures OrZero(Fold(NumaCpuTime(Group(raw, PLUS), OfTgid(tgid), cpuToNuma), node, PLUS))
         == TgidTimeOn(raw, tgid, cpuToNuma, node)
  {
    NumaEntry(raw, OfTgid(tgid), cpuToNuma, node);
    if raw == [] {
    } else {
      SumFirst(raw, OnNodes(OfTgid(tgid), cpuToNuma, Is(node)));
      TgidTimeIs(raw[1..], tgid, cpuToNuma, node);
    }
  }

  // ----- The sniffer -----------------------------------------------------------------------------------

  class Sniffer {
    var records: seq<Times>
    var schedDf: Times

    constructor ()
      ensures records == [] && schedDf == []
    {
      records, schedDf := [], [];
    }

    method RecordDf(df: Times)
      modifies this`records
      ensures records == old(records) + [df]
    {
      records := records + [df];
    }

    /** An update no delivery interrupts: the swap and the merge in one. */
    method UpdateDataframe() returns (df: Times)
      modifies this
      ensures records == [] && schedDf == MergeInto(old(schedDf), old(records)) && df == schedDf
    {
      var updates := records;
      records := [];
      if updates == [] {
        return schedDf;
      }
      schedDf := Group(schedDf + Concat(updates), PLUS);
      return schedDf;
    }

    method GetNumaCpuTimeByPid(pid: int, cpuToNuma: map<int, int>) returns (times: Frame<int, int>)
      modifies this
      ensures schedDf == MergeInto(old(schedDf), old(records)) && records == []
      ensures times == NumaCpuTime(schedDf, OfPid(pid), cpuToNuma)
    {
      var df := UpdateDataframe();
      times := Group(ByNuma(Select(df, OfPid(pid)), cpuToNuma), PLUS);
    }

    method GetNumaCpuTimeByTgid(tgid: int, cpuToNuma: map<int, int>) returns (times: Frame<int, int>)
      modifies this
      ensures schedDf == MergeInto(old(schedDf), old(records)) && records == []
      ensures times == NumaCpuTime(schedDf, OfTgid(tgid), cpuToNuma)
    {
      var df := UpdateDataframe();
      times := Group(ByNuma(Select(df, OfTgid(tgid)), cpuToNuma), PLUS);
    }
  }
}
