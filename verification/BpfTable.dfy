/**
 A BPF hash map as its walkers see it.  Every element keeps one place (`rank`) in the bucket
 order for as long as it lives; an inserted element may land anywhere in that order.
 */
module BpfTable {
  import opened Options

  datatype Slot<+V> = Slot(rank: real, value: V)
  type Table<K, +V> = map<K, Slot<V>>

  ghost predicate DistinctRanks<K, V>(t: Table<K, V>) {
    forall k, k' | k in t && k' in t && k != k' :: t[k].rank != t[k'].rank
  }

  /** May `bpf_map_get_next_key` step from `cur` to `k`?  An absent `cur` restarts the walk. */
  predicate Follows<K, V>(t: Table<K, V>, cur: Option<K>, k: K)
    requires k in t
  {
    cur.Some? && cur.value in t ==> t[cur.value].rank < t[k].rank
  }

  /** The answer of `bpf_map_get_next_key(map, cur)`: the nearest key that follows, if any. */
  ghost predicate IsNextKey<K, V>(t: Table<K, V>, cur: Option<K>, next: Option<K>) {
    match next
    case None => forall k | k in t :: !Follows(t, cur, k)
    case Some(n) =>
      && n in t
      && Follows(t, cur, n)
      && forall k | k in t && Follows(t, cur, k) :: t[n].rank <= t[k].rank
  }

  /** From nothing, or from a key no longer there, the answer is the first key of all; else the next after it. */
  lemma NextKeyMeans<K, V>(t: Table<K, V>, cur: Option<K>, n: K)
    requires DistinctRanks(t) && n in t
    ensures cur.None? || cur.value !in t ==>
              (IsNextKey(t, cur, Some(n)) <==> forall k | k in t && k != n :: t[n].rank < t[k].rank)
    ensures cur.Some? && cur.value in t ==>
              (IsNextKey(t, cur, Some(n)) <==>
               t[cur.value].rank < t[n].rank
               && forall k | k in t && k != n && t[cur.value].rank < t[k].rank :: t[n].rank < t[k].rank)
  {
    if cur.None? || cur.value !in t {
      assert forall k | k in t :: Follows(t, cur, k);
    } else {
      assert forall k | k in t :: Follows(t, cur, k) <==> t[cur.value].rank < t[k].rank;
    }
  }

  /** There is no answer exactly when the map is empty or the key is the last. */
  lemma NoNextKeyMeans<K, V>(t: Table<K, V>, cur: Option<K>)
    ensures IsNextKey(t, cur, None) <==>
            if cur.Some? && cur.value in t then forall k | k in t :: t[k].rank <= t[cur.value].rank else t == map[]
  {
    if cur.Some? && cur.value in t {
      assert forall k | k in t :: Follows(t, cur, k) <==> t[cur.value].rank < t[k].rank;
    } else {
      assert forall k | k in t :: Follows(t, cur, k);
    }
  }
}
