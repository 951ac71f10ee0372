/** Type dispatch over a set of collectors, with its lookup cache. */
module CollectorSet {
  import opened Options

  type Ty = int

  /** `sub(t, a)`: an instance of `t` is an instance of `a`.  A type is a subtype of itself. */
  type Subtyping = (Ty, Ty) -> bool

  ghost predicate Reflexive(sub: Subtyping) {
    forall t :: sub(t, t)
  }

  /** A collector, as far as dispatch goes, is the set of source node types it declares. */
  type Declarations = seq<set<Ty>>

  /** The collectors that declare exactly this type, in order. */
  function Declared(subs: Declarations, t: Ty): seq<nat> {
    if subs == [] then []
    else Declared(subs[..|subs| - 1], t) + if t in subs[|subs| - 1] then [|subs| - 1] else []
  }

  predicate Accepts(sub: Subtyping, declares: set<Ty>, t: Ty) {
    exists a | a in declares :: sub(t, a)
  }

  /** The collectors an isinstance scan over the declarations would call, in order. */
  function Scan(sub: Subtyping, subs: Declarations, t: Ty): seq<nat> {
    if subs == [] then []
    else Scan(sub, subs[..|subs| - 1], t) + if Accepts(sub, subs[|subs| - 1], t) then [|subs| - 1] else []
  }

  /** The answer of a lookup: the declared collectors if there are any, else the scan. */
  function Answer(sub: Subtyping, subs: Declarations, t: Ty): seq<nat> {
    if Declared(subs, t) != [] then Declared(subs, t) else Scan(sub, subs, t)
  }

  lemma {:induction false} DeclaredMembers(subs: Declarations, t: Ty, i: nat)
    ensures i in Declared(subs, t) <==> i < |subs| && t in subs[i]
  {
    if subs == [] {
    } else {
      DeclaredMembers(subs[..|subs| - 1], t, i);
    }
  }

  lemma {:induction false} ScanMembers(sub: Subtyping, subs: Declarations, t: Ty, i: nat)
    ensures i in Scan(sub, subs, t) <==> i < |subs| && Accepts(sub, subs[i], t)
  {
    if subs == [] {
    } else {
      ScanMembers(sub, subs[..|subs| - 1], t, i);
    }
  }

  predicate Increasing(s: seq<nat>) {
    forall i, j | 0 <= i < j < |s| :: s[i] < s[j]
  }

  lemma NextInOrder(s: seq<nat>, n: nat, listed: bool)
    requires Increasing(s) && forall i | i in s :: i < n
    ensures Increasing(s + if listed then [n] else [])
  {
    assert forall i | 0 <= i < |s| :: s[i] in s;
  }

  lemma {:induction false} ListedInOrder(sub: Subtyping, subs: Declarations, t: Ty)
    ensures Increasing(Declared(subs, t)) && Increasing(Scan(sub, subs, t))
  {
    hide Increasing;
    if subs == [] {
      Nothing();
    } else {
      var before, last := subs[..|subs| - 1], subs[|subs| - 1];
      ListedInOrder(sub, before, t);
      forall i | i in Declared(before, t)
        ensures i < |before|
      {
        DeclaredMembers(before, t, i);
      }
      forall i | i in Scan(sub, before, t)
        ensures i < |before|
      {
        ScanMembers(sub, before, t, i);
      }
      NextInOrder(Declared(before, t), |before|, t in last);
      NextInOrder(Scan(sub, before, t), |before|, Accepts(sub, last, t));
    }
  }

  lemma Nothing()
    ensures Increasing([])
  {
  }

  /**
   The collectors that declare the type itself if any does, else those that declare some type it is
   an instance of: each once, in the order they were given.
   */
  lemma AnswerMeans(sub: Subtyping, subs: Declarations, t: Ty)
    ensures forall i: nat :: i in Answer(sub, subs, t) <==>
                i < |subs| && if exists j | 0 <= j < |subs| :: t in subs[j] then t in subs[i]
                              else exists a | a in subs[i] :: sub(t, a)
    ensures forall i, j | 0 <= i < j < |Answer(sub, subs, t)| :: Answer(sub, subs, t)[i] < Answer(sub, subs, t)[j]
  {
    ListedInOrder(sub, subs, t);
    if exists j | 0 <= j < |subs| :: t in subs[j] {
      var j :| 0 <= j < |subs| && t in subs[j];
      DeclaredMembers(subs, t, j);
    } else if Declared(subs, t) != [] {
      DeclaredMembers(subs, t, Declared(subs, t)[0]);
      assert Declared(subs, t)[0] in Declared(subs, t);
    }
    forall i: nat
      ensures i in Declared(subs, t) <==> i < |subs| && t in subs[i]
      ensures i in Scan(sub, subs, t) <==> i < |subs| && exists a | a in subs[i] :: sub(t, a)
    {
      DeclaredMembers(subs, t, i);
      ScanMembers(sub, subs, t, i);
    }
  }

  /** Dispatch never calls a collector that the scan would not call. */
  lemma AnswerWithinScan(sub: Subtyping, subs: Declarations, t: Ty, i: nat)
    requires Reflexive(sub) && i in Answer(sub, subs, t)
    ensures i in Scan(sub, subs, t)
  {
    DeclaredMembers(subs, t, i);
    ScanMembers(sub, subs, t, i);
    if Declared(subs, t) != [] {
      assert t in subs[i] && sub(t, t);
    }
  }

  lemma {:induction false} DeclaredIsScan(sub: Subtyping, subs: Declarations, t: Ty)
    requires Reflexive(sub)
    requires forall i | 0 <= i < |subs| :: Accepts(sub, subs[i], t) ==> t in subs[i]
    ensures Declared(subs, t) == Scan(sub, subs, t)
  {
    if subs == [] {
    } else {
      DeclaredIsScan(sub, subs[..|subs| - 1], t);
      var last := subs[|subs| - 1];
      assert t in last ==> sub(t, t);
      assert t in last <==> Accepts(sub, last, t);
    }
  }

  /**
   Dispatch calls exactly the collectors of the scan if and only if nobody declares the type itself,
   or everybody who declares one of its ancestors declares it too.
   */
  lemma AnswerIsScanIff(sub: Subtyping, subs: Declarations, t: Ty)
    requires Reflexive(sub)
    ensures Answer(sub, subs, t) == Scan(sub, subs, t) <==>
            (forall i | 0 <= i < |subs| :: t !in subs[i])
            || (forall i, a | 0 <= i < |subs| && a in subs[i] && sub(t, a) :: t in subs[i])
  {
    if Declared(subs, t) == [] {
      forall i | 0 <= i < |subs|
        ensures t !in subs[i]
      {
        DeclaredMembers(subs, t, i);
      }
    } else {
      DeclaredMembers(subs, t, Declared(subs, t)[0]);
      assert Declared(subs, t)[0] in Declared(subs, t);
      if forall i, a | 0 <= i < |subs| && a in subs[i] && sub(t, a) :: t in subs[i] {
        DeclaredIsScan(sub, subs, t);
      } else {
        var i, a :| 0 <= i < |subs| && a in subs[i] && sub(t, a) && t !in subs[i];
        DeclaredMembers(subs, t, i);
        ScanMembers(sub, subs, t, i);
        assert i in Scan(sub, subs, t) && i !in Declared(subs, t);
      }
    }
  }

  /** The smallest set where they differ: one collector declares a type, the other a proper ancestor. */
  lemma DeclaredHides(sub: Subtyping, t: Ty, a: Ty)
    requires Reflexive(sub) && a != t && sub(t, a)
    ensures Answer(sub, [{t}, {a}], t) == [0] && Scan(sub, [{t}, {a}], t) == [0, 1]
  {
    var subs: Declarations := [{t}, {a}];
    assert subs[..1] == [{t}] && [{t}][..0] == [];
    assert Declared([{t}], t) == [0] && Declared(subs, t) == [0] + [];
    assert Scan(sub, [{t}], t) == [0];
  }

  // ----- The cache -------------------------------------------------------------------------------------

  type Index = map<Ty, seq<nat>>

  /** Every declared type has its entry, and every entry is the answer. */
  ghost predicate Sound(sub: Subtyping, subs: Declarations, index: Index) {
    && (forall t | t in index :: index[t] == Answer(sub, subs, t))
    && (forall t :: Declared(subs, t) != [] ==> t in index)
  }

  /** One lookup: a type not seen before is scanned for, and remembered. */
  function Lookup(sub: Subtyping, subs: Declarations, index: Index, t: Ty): (Index, seq<nat>) {
    if t in index then (index, index[t]) else (index[t := Scan(sub, subs, t)], Scan(sub, subs, t))
  }

  lemma LookupSound(sub: Subtyping, subs: Declarations, index: Index, t: Ty)
    requires Sound(sub, subs, index)
    ensures var (after, answer) := Lookup(sub, subs, index, t);
            Sound(sub, subs, after) && answer == Answer(sub, subs, t)
  {
  }

  /** The answer stays with its type, whichever collectors are added since, and no other entry changes. */
  lemma LookupRemembers(sub: Subtyping, subs: Declarations, later: Declarations, index: Index, t: Ty)
    ensures var (after, answer) := Lookup(sub, subs, index, t);
            && after.Keys == index.Keys + {t} && after[t] == answer && (t in index ==> answer == index[t])
            && (forall u | u in index && u != t :: after[u] == index[u])
            && Lookup(sub, later, after, t) == (after, answer)
  {
  }

  function Lookups(sub: Subtyping, subs: Declarations, index: Index, ts: seq<Ty>): (Index, seq<seq<nat>>) {
    if ts == [] then (index, [])
    else
      var (before, answers) := Lookups(sub, subs, index, ts[..|ts| - 1]);
      var (after, answer) := Lookup(sub, subs, before, ts[|ts| - 1]);
      (after, answers + [answer])
  }

  /** Over any run of lookups the answers do not depend on what was cached before. */
  lemma {:induction false} CacheIsTransparent(sub: Subtyping, subs: Declarations, index: Index, ts: seq<Ty>)
    requires Sound(sub, subs, index)
    ensures var (after, answers) := Lookups(sub, subs, index, ts);
            && Sound(sub, subs, after) && |answers| == |ts|
            && forall i | 0 <= i < |ts| :: answers[i] == Answer(sub, subs, ts[i])
  {
    hide Sound, Answer, Lookup;
    if ts == [] {
    } else {
      CacheIsTransparent(sub, subs, index, ts[..|ts| - 1]);
      LookupSound(sub, subs, Lookups(sub, subs, index, ts[..|ts| - 1]).0, ts[|ts| - 1]);
    }
  }

  /**
   A collector added later is not entered in the index.  The next lookup of `t` is still the answer
   over all collectors if and only if the newcomer does not matter to `t`, or `t` has not been looked
   up and the newcomer does not declare it, or is the only one to accept it.
   */
  lemma AddedIsSeenIff(sub: Subtyping, subs: Declarations, index: Index, added: set<Ty>, t: Ty)
    requires Reflexive(sub) && Sound(sub, subs, index)
    ensures Lookup(sub, subs + [added], index, t).1 == Answer(sub, subs + [added], t) <==>
            if t in index then t !in added && (Declared(subs, t) != [] || !Accepts(sub, added, t))
            else t !in added || Scan(sub, subs, t) == []
  {
    var all := subs + [added];
    assert all[..|all| - 1] == subs;
    DeclaredMembers(subs, t, |subs|);
    ScanMembers(sub, subs, t, |subs|);
    assert t in added ==> sub(t, t) && Accepts(sub, added, t);
    assert Declared(all, t) == Declared(subs, t) + if t in added then [|subs|] else [];
    assert Scan(sub, all, t) == Scan(sub, subs, t) + if Accepts(sub, added, t) then [|subs|] else [];
    assert Declared(subs, t) + [] == Declared(subs, t) && Scan(sub, subs, t) + [] == Scan(sub, subs, t);
    assert Scan(sub, subs, t) != [] ==> |Scan(sub, subs, t) + [|subs|]| > |[|subs|]|;
    assert |Declared(subs, t) + [|subs|]| > |Declared(subs, t)|
        && |Scan(sub, subs, t) + [|subs|]| > |Scan(sub, subs, t)|;
  }

  // ----- The class -------------------------------------------------------------------------------------

  /** What one collector answers for an entity.  An `OSError` or `ValueError` is passed over. */
  datatype Response = PassedOver | Fails | Found(nodes: seq<int>, edges: seq<int>)

  /** The answers of the collectors joined in order; any other exception ends the lookup. */
  function Gathered(respond: nat -> Response, cs: seq<nat>): Option<(seq<int>, seq<int>)> {
    if cs == [] then Some(([], []))
    else
      match Gathered(respond, cs[..|cs| - 1])
      case None => None
      case Some((nodes, edges)) =>
        match respond(cs[|cs| - 1])
        case PassedOver => Some((nodes, edges))
        case Fails => None
        case Found(ns, es) => Some((nodes + ns, edges + es))
  }

  lemma {:induction false} GatheredFails(respond: nat -> Response, cs: seq<nat>)
    ensures Gathered(respond, cs).None? <==> exists c | c in cs :: respond(c).Fails?
  {
    if cs == [] {
    } else {
      GatheredFails(respond, cs[..|cs| - 1]);
      assert cs == cs[..|cs| - 1] + [cs[|cs| - 1]];
    }
  }

  /** A node is reported if and only if one of the collectors called found it. */
  lemma {:induction false} GatheredMembers(respond: nat -> Response, cs: seq<nat>, n: int)
    requires Gathered(respond, cs).Some?
    ensures n in Gathered(respond, cs).value.0 <==> exists c | c in cs :: respond(c).Found? && n in respond(c).nodes
  {
    if cs == [] {
    } else {
      GatheredMembers(respond, cs[..|cs| - 1], n);
      assert cs == cs[..|cs| - 1] + [cs[|cs| - 1]];
    }
  }

  /** An edge is reported if and only if one of the collectors called found it. */
  lemma {:induction false} GatheredEdgeMembers(respond: nat -> Response, cs: seq<nat>, e: int)
    requires Gathered(respond, cs).Some?
    ensures e in Gathered(respond, cs).value.1 <==> exists c | c in cs :: respond(c).Found? && e in respond(c).edges
  {
    if cs == [] {
    } else {
      GatheredEdgeMembers(respond, cs[..|cs| - 1], e);
      assert cs == cs[..|cs| - 1] + [cs[|cs| - 1]];
    }
  }

  /** What a single collector called answers is its response, an error passed over counting as nothing found. */
  lemma GatheredOne(respond: nat -> Response, c: nat)
    ensures respond(c).PassedOver? ==> Gathered(respond, [c]) == Some(([], []))
    ensures respond(c).Fails? ==> Gathered(respond, [c]) == None
    ensures respond(c).Found? ==> Gathered(respond, [c]) == Some((respond(c).nodes, respond(c).edges))
  {
    var none: seq<int> := [];
    assert [c][..0] == [] && Gathered(respond, []) == Some((none, none));
    if respond(c).Found? {
      assert none + respond(c).nodes == respond(c).nodes && none + respond(c).edges == respond(c).edges;
    }
  }

  /**
   Two lists of collectors called one after the other: the nodes of the first and then those of the
   second, the edges likewise, each as often as found, and no answer if either has none.
   */
  lemma {:induction false} GatheredJoins(respond: nat -> Response, a: seq<nat>, b: seq<nat>)
    ensures Gathered(respond, a + b).Some? <==> Gathered(respond, a).Some? && Gathered(respond, b).Some?
    ensures Gathered(respond, a + b).Some? ==>
              && Gathered(respond, a + b).value.0 == Gathered(respond, a).value.0 + Gathered(respond, b).value.0
              && Gathered(respond, a + b).value.1 == Gathered(respond, a).value.1 + Gathered(respond, b).value.1
  {
    if b == [] {
      assert a + b == a;
    } else {
      var init, last := b[..|b| - 1], b[|b| - 1];
      GatheredJoins(respond, a, init);
      assert (a + b)[..|a + b| - 1] == a + init && (a + b)[|a + b| - 1] == last;
    }
  }

  /** The index with collector `i` entered under every type of `ts`. */
  function Enter(index: Index, i: nat, ts: set<Ty>): Index {
    map t | t in index.Keys + ts ::
      (if t in index then index[t] else []) + if t in ts then [i] else []
  }

  lemma EnterNone(index: Index, i: nat)
    ensures Enter(index, i, {}) == index
  {
    assert forall t | t in index :: index[t] + [] == index[t];
  }

  lemma EnterOne(index: Index, i: nat, ts: set<Ty>, t: Ty)
    requires t !in ts
    ensures var was := Enter(index, i, ts);
            Enter(index, i, ts + {t}) == was[t := (if t in was then was[t] else []) + [i]]
  {
    var was := Enter(index, i, ts);
    assert t in index ==> was[t] == index[t] + [] == index[t];
  }

  /** The index holds the declared types and nothing else. */
  ghost predicate Tight(subs: Declarations, index: Index) {
    && (forall t :: t in index <==> Declared(subs, t) != [])
    && (forall t | t in index :: index[t] == Declared(subs, t))
  }

  lemma EnterTight(subs: Declarations, index: Index)
    requires subs != [] && Tight(subs[..|subs| - 1], index)
    ensures Tight(subs, Enter(index, |subs| - 1, subs[|subs| - 1]))
  {
  }

  lemma NoneTight()
    ensures Tight([], map[])
  {
  }

  lemma TightIsSound(sub: Subtyping, subs: Declarations, index: Index)
    requires Tight(subs, index)
    ensures Sound(sub, subs, index)
  {
  }

  class Collectors {
    const sub: Subtyping
    var subcollectors: Declarations
    var index: Index

    ghost predicate Valid()
      reads this
    {
      Sound(sub, subcollectors, index)
    }

    constructor (sub: Subtyping, subs: Declarations)
      ensures Valid() && this.sub == sub && subcollectors == subs
      ensures Tight(subs, index)
    {
      this.sub, subcollectors := sub, subs;
      index := map[];
      new;
      hide Tight, Enter, Sound, Answer, Declared;
      NoneTight();
      for i := 0 to |subs|
        invariant this.sub == sub && subcollectors == subs
        invariant Tight(subs[..i], index)
      {
        assert subs[..i + 1][..i] == subs[..i];
        EnterTight(subs[..i + 1], index);
        index := EnterAll(index, i, subs[i]);
      }
      assert subs[..|subs|] == subs;
      TightIsSound(sub, subs, index);
    }

    static method EnterAll(index: Index, i: nat, ts: set<Ty>) returns (entered: Index)
      ensures entered == Enter(index, i, ts)
    {
      hide Enter;
      entered := index;
      var rest := ts;
      EnterNone(index, i);
      assert ts - rest == {};
      while rest != {}
        invariant rest <= ts && entered == Enter(index, i, ts - rest)
        decreases |rest|
      {
        assert exists t :: t in rest by {
          if forall t :: t !in rest {
            assert false;
          }
        }
        var t :| t in rest;
        EnterOne(index, i, ts - rest, t);
        entered := entered[t := (if t in entered then entered[t] else []) + [i]];
        assert ts - (rest - {t}) == ts - rest + {t};
        rest := rest - {t};
      }
      assert ts - rest == ts;
    }

    method Dispatch(t: Ty) returns (cs: seq<nat>)
      requires Valid()
      modifies this`index
      ensures Valid() && cs == Answer(sub, subcollectors, t)
      ensures (index, cs) == Lookup(sub, subcollectors, old(index), t)
    {
      if t !in index {
        cs := [];
        for i := 0 to |subcollectors|
          invariant index == old(index) && cs == Scan(sub, subcollectors[..i], t)
        {
          assert subcollectors[..i + 1][..i] == subcollectors[..i];
          if exists a | a in subcollectors[i] :: sub(t, a) {
            cs := cs + [i];
          }
        }
        assert subcollectors[..|subcollectors|] == subcollectors;
        index := index[t := cs];
      }
      cs := index[t];
    }

    method GetNeighborsWithEdges(t: Ty, respond: nat -> Response) returns (found: Option<(seq<int>, seq<int>)>)
      requires Valid()
      modifies this`index
      ensures Valid() && found == Gathered(respond, Answer(sub, subcollectors, t))
    {
      hide Sound, Answer;
      var nodes, edges := [], [];
      var cs := Dispatch(t);
      for i := 0 to |cs|
        invariant Valid() && Some((nodes, edges)) == Gathered(respond, cs[..i])
      {
        assert cs[..i + 1][..i] == cs[..i];
        match respond(cs[i]) {
          case PassedOver =>
          case Fails =>
            GatheredFails(respond, cs);
            return None;
          case Found(ns, es) =>
            nodes, edges := nodes + ns, edges + es;
        }
      }
      assert cs[..|cs|] == cs;
      return Some((nodes, edges));
    }

    method AddCollector(added: set<Ty>)
      modifies this`subcollectors
      ensures subcollectors == old(subcollectors) + [added]
    {
      subcollectors := subcollectors + [added];
    }
  }
}
