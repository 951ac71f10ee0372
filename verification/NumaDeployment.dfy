/** Which NUMA node each CPU belongs to, and the NUMA-set identity of a thread's allowed CPUs. */
module NumaDeployment {
  import opened Options
  import opened RangeString
  import opened Sequences
  import opened Sorting

  /** A node and its `cpulist`, a range string. */
  datatype NumaNode = NumaNode(id: nat, cpuSet: string)

  type CpuToNuma = map<int, nat>

  function Assign(m: CpuToNuma, cpus: set<int>, id: nat): CpuToNuma {
    map c | c in m.Keys + cpus :: if c in cpus then id else m[c]
  }

  /** The table over all nodes; a list that does not parse is an error. */
  function Deploy(nodes: seq<NumaNode>): Option<CpuToNuma> {
    if nodes == [] then Some(map[])
    else
      match (Deploy(nodes[..|nodes| - 1]), Parse(nodes[|nodes| - 1].cpuSet))
      case (Some(m), Some(cpus)) => Some(Assign(m, cpus, nodes[|nodes| - 1].id))
      case _ => None
  }

  /** The node ids that a set of CPUs touches. */
  function Touched(m: CpuToNuma, cpus: set<int>): set<nat> {
    set c | c in cpus && c in m :: m[c]
  }

  lemma {:induction false} DeployStops(nodes: seq<NumaNode>, i: nat)
    requires i <= |nodes| && Deploy(nodes[..i]).None?
    ensures Deploy(nodes).None?
    decreases |nodes| - i
  {
    if i < |nodes| {
      assert nodes[..i + 1][..i] == nodes[..i];
      DeployStops(nodes, i + 1);
    } else {
      assert nodes[..i] == nodes;
    }
  }

  method AssignAll(m: CpuToNuma, cpus: set<int>, id: nat) returns (m': CpuToNuma)
    ensures m' == Assign(m, cpus, id)
  {
    m' := m;
    var rest := cpus;
    while rest != {}
      invariant rest <= cpus && m' == Assign(m, cpus - rest, id)
      decreases |rest|
    {
      assert exists c :: c in rest by {
        if forall c :: c !in rest {
          assert false;
        }
      }
      var c :| c in rest;
      m', rest := m'[c := id], rest - {c};
    }
    assert cpus - rest == cpus;
  }

  method Detect(nodes: seq<NumaNode>) returns (table: Option<CpuToNuma>)
    ensures table == Deploy(nodes)
  {
    var m: CpuToNuma := map[];
    for i := 0 to |nodes|
      invariant Deploy(nodes[..i]) == Some(m)
    {
      assert nodes[..i + 1][..i] == nodes[..i];
      var cpus := RangeStrToList(nodes[i].cpuSet);
      if cpus.None? {
        DeployStops(nodes, i + 1);
        return None;
      }
      m := AssignAll(m, cpus.value, nodes[i].id);
    }
    assert nodes[..|nodes|] == nodes;
    return Some(m);
  }

  lemma DeployLast(nodes: seq<NumaNode>)
    requires nodes != [] && Deploy(nodes).Some?
    ensures Deploy(nodes[..|nodes| - 1]).Some? && Parse(nodes[|nodes| - 1].cpuSet).Some?
    ensures Deploy(nodes).value ==
            Assign(Deploy(nodes[..|nodes| - 1]).value, Parse(nodes[|nodes| - 1].cpuSet).value, nodes[|nodes| - 1].id)
  {
  }

  lemma DeployNone()
    ensures Deploy([]) == Some(map[])
  {
  }

  ghost predicate ListsCpu(node: NumaNode, c: int) {
    Parse(node.cpuSet).Some? && c in Parse(node.cpuSet).value
  }

  /** A CPU belongs to the last node that lists it ... */
  lemma {:induction false} LastListerOwns(nodes: seq<NumaNode>, c: int, i: nat)
    requires Deploy(nodes).Some? && i < |nodes| && ListsCpu(nodes[i], c)
    requires forall j | i < j < |nodes| :: !ListsCpu(nodes[j], c)
    ensures c in Deploy(nodes).value && Deploy(nodes).value[c] == nodes[i].id
  {
    hide Deploy, Parse;
    var n := |nodes| - 1;
    DeployLast(nodes);
    if i == n {
    } else {
      LastListerOwns(nodes[..n], c, i);
    }
  }

  /** ... and to no node if none lists it. */
  lemma {:induction false} OnlyListed(nodes: seq<NumaNode>, c: int) returns (i: nat)
    requires Deploy(nodes).Some? && c in Deploy(nodes).value
    ensures i < |nodes| && ListsCpu(nodes[i], c) && Deploy(nodes).value[c] == nodes[i].id
    ensures forall j | i < j < |nodes| :: !ListsCpu(nodes[j], c)
  {
    hide Deploy, Parse;
    DeployNone();
    var n := |nodes| - 1;
    DeployLast(nodes);
    if ListsCpu(nodes[n], c) {
      i := n;
    } else {
      i := OnlyListed(nodes[..n], c);
    }
  }

  /** Where the kernel prints disjoint CPU lists, each CPU is found on exactly the node that lists it. */
  lemma DeployPrinted(nodes: seq<NumaNode>, lists: seq<seq<int>>, i: nat, c: int)
    requires |nodes| == |lists| && i < |nodes| && c in lists[i]
    requires forall k | 0 <= k < |lists| :: NonNegative(lists[k]) && NonNegative(Sort(lists[k]))
              && nodes[k].cpuSet == Print(lists[k])
    requires forall k | 0 <= k < |lists| && k != i :: c !in lists[k]
    ensures Deploy(nodes).Some? && c in Deploy(nodes).value && Deploy(nodes).value[c] == nodes[i].id
  {
    forall k | 0 <= k < |lists|
      ensures Parse(nodes[k].cpuSet) == Some(Elements(lists[k]))
    {
      RoundTrip(lists[k]);
    }
    DeployParses(nodes);
    assert c in Elements(lists[i]);
    LastListerOwns(nodes, c, i);
  }

  lemma {:induction false} DeployParses(nodes: seq<NumaNode>)
    requires forall k | 0 <= k < |nodes| :: Parse(nodes[k].cpuSet).Some?
    ensures Deploy(nodes).Some?
  {
    if nodes == [] {
    } else {
      DeployParses(nodes[..|nodes| - 1]);
    }
  }

  // ----- Queries ---------------------------------------------------------------------------------------

  method QueryNumaIdByCpu(m: CpuToNuma, cpus: set<int>) returns (ans: set<nat>)
    ensures ans == Touched(m, cpus)
    ensures forall n: nat :: n in ans <==> exists c | c in cpus :: c in m && m[c] == n
  {
    ans := {};
    var rest := cpus;
    while rest != {}
      invariant rest <= cpus && ans == Touched(m, cpus - rest)
      decreases |rest|
    {
      assert exists c :: c in rest by {
        if forall c :: c !in rest {
          assert false;
        }
      }
      var c :| c in rest;
      TouchedOne(m, cpus - rest, c);
      assert cpus - (rest - {c}) == cpus - rest + {c};
      if c in m {
        ans := ans + {m[c]};
      }
      rest := rest - {c};
    }
    assert cpus - rest == cpus;
  }

  lemma TouchedOne(m: CpuToNuma, cpus: set<int>, c: int)
    ensures Touched(m, cpus + {c}) == Touched(m, cpus) + if c in m then {m[c]} else {}
  {
  }

  /** `list(ans)`: the members once each, in no particular order. */
  method ListOf(s: set<nat>) returns (list: seq<int>)
    ensures NonNegative(list) && forall x: int :: x in list <==> x >= 0 && x in s
  {
    list := [];
    var rest := s;
    while rest != {}
      invariant rest <= s && NonNegative(list)
      invariant forall x: int :: x in list <==> x >= 0 && x in s - rest
      decreases |rest|
    {
      assert exists x: nat :: x in rest by {
        if forall x: nat :: x !in rest {
          assert false;
        }
      }
      var x: nat :| x in rest;
      list, rest := list + [x], rest - {x};
    }
  }

  /** The text that names the NUMA set: it parses back to the touched nodes, whatever order the set came in. */
  method AccessedNumaNodes(m: CpuToNuma, cpusAllowed: string) returns (text: Option<string>)
    ensures text.None? <==> Parse(cpusAllowed).None?
    ensures text.Some? ==> IsNameOf(text.value, Touched(m, Parse(cpusAllowed).value))
  {
    var cpus := RangeStrToList(cpusAllowed);
    if cpus.None? {
      return None;
    }
    var ans := QueryNumaIdByCpu(m, cpus.value);
    var list := ListOf(ans);
    var printed := ListToRangeStr(list);
    Named(list, ans);
    return Some(printed);
  }

  /** `text` is the canonical range string of the set. */
  ghost predicate IsNameOf(text: string, s: set<nat>) {
    exists list :: NonNegative(list) && NonNegative(Sort(list)) && Lists(list, s) && text == Print(list)
  }

  ghost predicate Lists(list: seq<int>, s: set<nat>) {
    forall x: int :: x in list <==> x >= 0 && x in s
  }

  lemma Named(list: seq<int>, s: set<nat>)
    requires NonNegative(list) && Lists(list, s)
    ensures NonNegative(Sort(list)) && IsNameOf(Print(list), s)
  {
    SortNonNegative(list);
  }

  /** Two names are equal exactly when they name the same set of nodes. */
  lemma NamesIdentify(a: string, s: set<nat>, b: string, t: set<nat>)
    requires IsNameOf(a, s) && IsNameOf(b, t)
    ensures a == b <==> s == t
  {
    var la :| NonNegative(la) && NonNegative(Sort(la)) && Lists(la, s) && a == Print(la);
    var lb :| NonNegative(lb) && NonNegative(Sort(lb)) && Lists(lb, t) && b == Print(lb);
    PrintIdentifiesSet(la, lb);
    if s == t {
      assert Elements(la) == Elements(lb);
    }
    if Elements(la) == Elements(lb) {
      forall x: nat
        ensures x in s <==> x in t
      {
        assert x in Elements(la) <==> x in la;
        assert x in Elements(lb) <==> x in lb;
      }
    }
  }

  /** ... and a name parses back to its set. */
  lemma NameParses(a: string, s: set<nat>, x: int)
    requires IsNameOf(a, s)
    ensures Parse(a).Some? && (x in Parse(a).value <==> x >= 0 && x in s)
  {
    var la :| NonNegative(la) && NonNegative(Sort(la)) && Lists(la, s) && a == Print(la);
    RoundTrip(la);
    assert x in Elements(la) <==> x in la;
  }
}
