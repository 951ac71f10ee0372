/** Frames of keyed rows, and the grouping that folds the rows of each key into one. */
module Grouping {
  import opened Options

  type Frame<K, V> = seq<(K, V)>

  function IndexOf<K(==), V>(t: Frame<K, V>, k: K): (i: nat)
    ensures i <= |t| && (i < |t| ==> t[i].0 == k)
    ensures forall j | 0 <= j < i :: t[j].0 != k
  {
    if t == [] || t[0].0 == k then 0 else 1 + IndexOf(t[1..], k)
  }

  /** Adds one row: folded into the row of its key, or appended. */
  function Upsert<K(==), V>(t: Frame<K, V>, r: (K, V), f: (V, V) -> V): Frame<K, V> {
    var i := IndexOf(t, r.0);
    if i < |t| then t[i := (r.0, f(t[i].1, r.1))] else t + [r]
  }

  function UpsertAll<K(==), V>(t: Frame<K, V>, rows: Frame<K, V>, f: (V, V) -> V): Frame<K, V> {
    if rows == [] then t else Upsert(UpsertAll(t, rows[..|rows| - 1], f), rows[|rows| - 1], f)
  }

  /** `groupby(key).agg(f)`: one row a key, in order of first occurrence. */
  function Group<K(==), V>(rows: Frame<K, V>, f: (V, V) -> V): Frame<K, V> {
    UpsertAll([], rows, f)
  }

  predicate UniqueKeys<K(==), V>(t: Frame<K, V>) {
    forall i, j | 0 <= i < j < |t| :: t[i].0 != t[j].0
  }

  /** The values of one key folded in row order; nothing if there is no such row. */
  function Fold<K(==), V>(rows: Frame<K, V>, k: K, f: (V, V) -> V): Option<V> {
    if rows == [] then None
    else
      var r := rows[|rows| - 1];
      var before := Fold(rows[..|rows| - 1], k, f);
      if r.0 != k then before
      else if before.None? then Some(r.1)
      else Some(f(before.value, r.1))
  }

  lemma FoldAppend<K, V>(rows: Frame<K, V>, r: (K, V), k: K, f: (V, V) -> V)
    ensures Fold(rows + [r], k, f) ==
            if r.0 != k then Fold(rows, k, f)
            else if Fold(rows, k, f).None? then Some(r.1) else Some(f(Fold(rows, k, f).value, r.1))
  {
    assert (rows + [r])[..|rows|] == rows;
  }

  /** Folding on from a prefix depends on the prefix through its fold only. */
  lemma {:induction false} FoldFrom<K, V>(a: Frame<K, V>, a': Frame<K, V>, b: Frame<K, V>, k: K, f: (V, V) -> V)
    requires Fold(a, k, f) == Fold(a', k, f)
    ensures Fold(a + b, k, f) == Fold(a' + b, k, f)
  {
    if b == [] {
      assert a + b == a && a' + b == a';
    } else {
      var b', r := b[..|b| - 1], b[|b| - 1];
      FoldFrom(a, a', b', k, f);
      assert a + b == (a + b') + [r] && a' + b == (a' + b') + [r];
      FoldAppend(a + b', r, k, f);
      FoldAppend(a' + b', r, k, f);
    }
  }

  lemma {:induction false} FoldAbsent<K, V>(t: Frame<K, V>, k: K, f: (V, V) -> V)
    ensures Fold(t, k, f).None? <==> forall i | 0 <= i < |t| :: t[i].0 != k
  {
    if t == [] {
    } else {
      FoldAbsent(t[..|t| - 1], k, f);
    }
  }

  /** In a frame with unique keys, a key's fold is its row. */
  lemma {:induction false} FoldUnique<K, V>(t: Frame<K, V>, i: nat, f: (V, V) -> V)
    requires UniqueKeys(t) && i < |t|
    ensures Fold(t, t[i].0, f) == Some(t[i].1)
  {
    var n := |t|;
    if i == n - 1 {
      FoldAbsent(t[..n - 1], t[i].0, f);
    } else {
      FoldUnique(t[..n - 1], i, f);
    }
  }

  lemma UpsertFolds<K, V>(t: Frame<K, V>, r: (K, V), k: K, f: (V, V) -> V)
    requires UniqueKeys(t)
    ensures UniqueKeys(Upsert(t, r, f))
    ensures Fold(Upsert(t, r, f), k, f) == Fold(t + [r], k, f)
  {
    FoldAppend(t, r, k, f);
    var u, i, j := Upsert(t, r, f), IndexOf(t, r.0), IndexOf(t, k);
    FoldAbsent(t, r.0, f);
    if j < |t| {
      FoldUnique(t, j, f);
      FoldUnique(u, j, f);
    } else if k == r.0 {
      FoldUnique(u, |t|, f);
      FoldAbsent(t, k, f);
    } else {
      FoldAbsent(t, k, f);
      FoldAbsent(u, k, f);
    }
  }

  /** Grouping keeps one row a key, and each key's fold. */
  lemma {:induction false} GroupFolds<K, V>(rows: Frame<K, V>, k: K, f: (V, V) -> V)
    ensures UniqueKeys(Group(rows, f))
    ensures Fold(Group(rows, f), k, f) == Fold(rows, k, f)
  {
    if rows == [] {
    } else {
      var init, r := rows[..|rows| - 1], rows[|rows| - 1];
      GroupFolds(init, k, f);
      UpsertFolds(Group(init, f), r, k, f);
      FoldFrom(Group(init, f), init, [r], k, f);
      assert rows == init + [r];
    }
  }

  lemma IndexAppend<K, V>(rows: Frame<K, V>, r: (K, V), k: K)
    ensures IndexOf(rows + [r], k) ==
            if IndexOf(rows, k) < |rows| || k == r.0 then IndexOf(rows, k) else |rows| + 1
  {
    var i, j := IndexOf(rows + [r], k), IndexOf(rows, k);
    assert j < |rows| ==> (rows + [r])[j].0 == k;
    assert (rows + [r])[|rows|].0 == r.0;
    assert i < |rows| ==> rows[i].0 == k;
  }

  /** The rows of a grouping come in the order in which their keys first occur. */
  lemma {:induction false} GroupOrder<K, V>(rows: Frame<K, V>, f: (V, V) -> V)
    ensures forall i | 0 <= i < |Group(rows, f)| :: IndexOf(rows, Group(rows, f)[i].0) < |rows|
    ensures forall i, j | 0 <= i < j < |Group(rows, f)| ::
              IndexOf(rows, Group(rows, f)[i].0) < IndexOf(rows, Group(rows, f)[j].0)
  {
    if rows == [] {
    } else {
      var init, r := rows[..|rows| - 1], rows[|rows| - 1];
      GroupOrder(init, f);
      var t, u := Group(init, f), Group(rows, f);
      assert rows == init + [r];
      forall i | 0 <= i < |u|
        ensures i < |t| ==> u[i].0 == t[i].0 && IndexOf(rows, u[i].0) == IndexOf(init, t[i].0)
        ensures i == |t| ==> u[i].0 == r.0 && IndexOf(rows, u[i].0) == |init|
      {
        IndexAppend(init, r, u[i].0);
        if i == |t| {
          FoldAbsent(t, r.0, f);
          GroupFolds(init, r.0, f);
          FoldAbsent(init, r.0, f);
        }
      }
    }
  }

  lemma {:induction false} UpsertAllConcat<K, V>(t: Frame<K, V>, a: Frame<K, V>, b: Frame<K, V>, f: (V, V) -> V)
    ensures UpsertAll(t, a + b, f) == UpsertAll(UpsertAll(t, a, f), b, f)
  {
    if b == [] {
      assert a + b == a;
    } else {
      UpsertAllConcat(t, a, b[..|b| - 1], f);
      assert (a + b)[..|a + b| - 1] == a + b[..|b| - 1];
    }
  }

  lemma {:induction false} GroupUnique<K, V>(t: Frame<K, V>, f: (V, V) -> V)
    requires UniqueKeys(t)
    ensures Group(t, f) == t
  {
    if t == [] {
    } else {
      GroupUnique(t[..|t| - 1], f);
    }
  }

  /** Grouping early changes nothing: a grouped frame may stand for the rows it was made from. */
  lemma Regroup<K, V>(a: Frame<K, V>, b: Frame<K, V>, f: (V, V) -> V)
    ensures Group(Group(a, f) + b, f) == Group(a + b, f)
  {
    UniqueGroup(a, f);
    GroupUnique(Group(a, f), f);
    UpsertAllConcat([], a, b, f);
    UpsertAllConcat([], Group(a, f), b, f);
  }

  lemma UniqueGroup<K, V>(rows: Frame<K, V>, f: (V, V) -> V)
    ensures UniqueKeys(Group(rows, f))
  {
    if rows != [] {
      GroupFolds(rows, rows[0].0, f);
    }
  }

  // ----- Joining frames -----------------------------------------------------------------------------

  function Concat<K, V>(frames: seq<Frame<K, V>>): Frame<K, V> {
    if frames == [] then [] else Concat(frames[..|frames| - 1]) + frames[|frames| - 1]
  }

  lemma {:induction false} ConcatSplits<K, V>(a: seq<Frame<K, V>>, b: seq<Frame<K, V>>)
    ensures Concat(a + b) == Concat(a) + Concat(b)
  {
    if b == [] {
      assert a + b == a;
    } else {
      ConcatSplits(a, b[..|b| - 1]);
      assert (a + b)[..|a + b| - 1] == a + b[..|b| - 1];
    }
  }

  lemma ConcatOne<K, V>(frame: Frame<K, V>)
    ensures Concat([frame]) == frame
  {
    assert [frame][..0] == [];
    assert Concat<K, V>([]) == [];
  }

  // ----- Sums ---------------------------------------------------------------------------------------

  const PLUS: (int, int) -> int := (a, b) => a + b

  /** The sum over the rows whose key satisfies `p`. */
  function SumWhere<K>(rows: Frame<K, int>, p: K -> bool): int {
    if rows == [] then 0
    else SumWhere(rows[..|rows| - 1], p) + if p(rows[|rows| - 1].0) then rows[|rows| - 1].1 else 0
  }

  lemma SumAppend<K>(rows: Frame<K, int>, r: (K, int), p: K -> bool)
    ensures SumWhere(rows + [r], p) == SumWhere(rows, p) + if p(r.0) then r.1 else 0
  {
    assert (rows + [r])[..|rows|] == rows;
  }

  lemma {:induction false} SumRaise<K>(t: Frame<K, int>, i: nat, d: int, p: K -> bool)
    requires i < |t|
    ensures SumWhere(t[i := (t[i].0, t[i].1 + d)], p) == SumWhere(t, p) + if p(t[i].0) then d else 0
  {
    var n := |t|;
    if i < n - 1 {
      SumRaise(t[..n - 1], i, d, p);
      assert t[i := (t[i].0, t[i].1 + d)][..n - 1] == t[..n - 1][i := (t[i].0, t[i].1 + d)];
    } else {
      assert t[i := (t[i].0, t[i].1 + d)][..n - 1] == t[..n - 1];
    }
  }

  /** Grouping by sum conserves every sum that depends on the key alone. */
  lemma {:induction false} GroupSums<K>(rows: Frame<K, int>, p: K -> bool)
    ensures SumWhere(Group(rows, PLUS), p) == SumWhere(rows, p)
  {
    if rows == [] {
    } else {
      var init, r := rows[..|rows| - 1], rows[|rows| - 1];
      GroupSums(init, p);
      var t := Group(init, PLUS);
      var i := IndexOf(t, r.0);
      if i < |t| {
        SumRaise(t, i, r.1, p);
      } else {
        SumAppend(t, r, p);
      }
    }
  }

  function Is<K(==)>(k: K): K -> bool {
    x => x == k
  }

  function OrZero(v: Option<int>): int {
    if v.Some? then v.value else 0
  }

  /** The fold of one key is the sum of its rows. */
  lemma {:induction false} FoldIsSum<K>(rows: Frame<K, int>, k: K)
    ensures OrZero(Fold(rows, k, PLUS)) == SumWhere(rows, Is(k))
  {
    if rows == [] {
    } else {
      FoldIsSum(rows[..|rows| - 1], k);
    }
  }
}
