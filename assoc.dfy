/**
  Insertion-ordered association lists: the model of every map the source edits
  (serde_json's `Map`, the attribute hash maps, a Python `dict`). Inserting an
  existing key overwrites its value where it stands; a new key goes to the end.
*/
module Assoc {
  import opened Base

  predicate HasKey<K(==), V>(entries: seq<(K, V)>, k: K) {
    exists i :: 0 <= i < |entries| && entries[i].0 == k
  }

  predicate UniqueKeys<K(==), V>(entries: seq<(K, V)>) {
    forall i, j :: 0 <= i < j < |entries| ==> entries[i].0 != entries[j].0
  }

  /** Index of the first entry under key `k`. */
  function Find<K(==), V>(entries: seq<(K, V)>, k: K): (r: Option<nat>)
    ensures r.Some? ==> r.value < |entries| && entries[r.value].0 == k
    ensures r.Some? ==> forall j :: 0 <= j < r.value ==> entries[j].0 != k
    ensures r.None? <==> !HasKey(entries, k)
  {
    if entries == [] then None
    else if entries[0].0 == k then Some(0)
    else match Find(entries[1..], k)
      case None => None
      case Some(j) => Some(j + 1)
  }

  function Lookup<K(==), V>(entries: seq<(K, V)>, k: K): (r: Option<V>)
    ensures r.Some? <==> HasKey(entries, k)
    ensures UniqueKeys(entries) ==>
      forall i :: 0 <= i < |entries| && entries[i].0 == k ==> r == Some(entries[i].1)
  {
    match Find(entries, k)
    case None => None
    case Some(i) => Some(entries[i].1)
  }

  /** Two lists with the same key column agree on where every key is first found. */
  lemma {:induction false} FindSameKeys<K, V>(a: seq<(K, V)>, b: seq<(K, V)>, k: K)
    requires |a| == |b| && forall j :: 0 <= j < |a| ==> a[j].0 == b[j].0
    ensures Find(a, k) == Find(b, k)
  {
    if a != [] && a[0].0 != k {
      FindSameKeys(a[1..], b[1..], k);
    }
  }

  /** `map.insert(k, v)`: overwrite in place, or append a new entry. */
  function Put<K(==, !new), V>(entries: seq<(K, V)>, k: K, v: V): (r: seq<(K, V)>)
    ensures Lookup(r, k) == Some(v)
    ensures forall k' :: k' != k ==> Lookup(r, k') == Lookup(entries, k')
    ensures HasKey(entries, k) ==> |r| == |entries|
    ensures !HasKey(entries, k) ==> r == entries + [(k, v)]
    ensures forall j :: 0 <= j < |entries| ==> r[j].0 == entries[j].0
    ensures forall j :: 0 <= j < |entries| && entries[j].0 != k ==> r[j] == entries[j]
    ensures forall j :: 0 <= j < |r| ==> r[j] == (k, v) || (j < |entries| && r[j] == entries[j])
    ensures UniqueKeys(entries) ==> UniqueKeys(r)
  {
    match Find(entries, k)
    case None =>
      var r := entries + [(k, v)];
      assert forall k' :: k' != k ==> Find(r, k') == Find(entries, k') by {
        forall k' | k' != k ensures Find(r, k') == Find(entries, k') {
          FindAppendOther(entries, (k, v), k');
        }
      }
      FindAppendNew(entries, (k, v));
      r
    case Some(i) =>
      var r := entries[i := (k, v)];
      assert forall k' :: Find(r, k') == Find(entries, k') by {
        forall k' ensures Find(r, k') == Find(entries, k') {
          FindSameKeys(r, entries, k');
        }
      }
      r
  }

  lemma {:induction false} FindAppendOther<K, V>(entries: seq<(K, V)>, e: (K, V), k: K)
    requires e.0 != k
    ensures Find(entries + [e], k) == Find(entries, k)
  {
    if entries != [] {
      assert (entries + [e])[1..] == entries[1..] + [e];
      FindAppendOther(entries[1..], e, k);
    }
  }

  lemma {:induction false} FindAppendNew<K, V>(entries: seq<(K, V)>, e: (K, V))
    requires !HasKey(entries, e.0)
    ensures Find(entries + [e], e.0) == Some(|entries|)
  {
    if entries != [] {
      assert (entries + [e])[1..] == entries[1..] + [e];
      FindAppendNew(entries[1..], e);
    }
  }

  /** Inserting the pairs one after the other into an empty map: every key once. */
  function PutAll<K(==, !new), V>(pairs: seq<(K, V)>): (r: seq<(K, V)>)
    ensures UniqueKeys(r) && |r| <= |pairs|
    ensures forall k :: HasKey(r, k) <==> HasKey(pairs, k)
  {
    if pairs == [] then []
    else
      var front := pairs[..|pairs| - 1];
      var last := pairs[|pairs| - 1];
      assert forall k :: HasKey(pairs, k) <==> HasKey(front, k) || k == last.0 by {
        forall k | HasKey(pairs, k) ensures HasKey(front, k) || k == last.0 {
          var j :| 0 <= j < |pairs| && pairs[j].0 == k;
          if j < |front| { assert front[j].0 == k; }
        }
        forall k | HasKey(front, k) ensures HasKey(pairs, k) {
          var j :| 0 <= j < |front| && front[j].0 == k;
          assert pairs[j].0 == k;
        }
      }
      Put(PutAll(front), last.0, last.1)
  }

  /** The last write wins: a key holds the value of the last pair inserted under it. */
  lemma {:induction false} PutAllLastWins<K(!new), V>(pairs: seq<(K, V)>, j: nat)
    requires j < |pairs|
    requires forall i :: j < i < |pairs| ==> pairs[i].0 != pairs[j].0
    ensures Lookup(PutAll(pairs), pairs[j].0) == Some(pairs[j].1)
  {
    if |pairs| - 1 > j {
      PutAllLastWins(pairs[..|pairs| - 1], j);
    }
  }

  /** Pairs with distinct keys are inserted as they stand, in order. */
  lemma {:induction false} PutAllDistinct<K(!new), V>(pairs: seq<(K, V)>)
    requires UniqueKeys(pairs)
    ensures PutAll(pairs) == pairs
  {
    if pairs != [] {
      var front := pairs[..|pairs| - 1];
      var last := pairs[|pairs| - 1];
      assert UniqueKeys(front) by {
        forall i, j | 0 <= i < j < |front| ensures front[i].0 != front[j].0 {
          assert pairs[i].0 != pairs[j].0;
        }
      }
      PutAllDistinct(front);
      forall i | 0 <= i < |front| ensures front[i].0 != last.0 {
        assert pairs[i].0 != pairs[|pairs| - 1].0;
      }
      assert front + [last] == pairs;
    }
  }
}
