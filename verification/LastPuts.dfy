/** Histories of puts: what each step of a run writes, key by key, and the value that
    is left under a key afterwards. */
module LastPuts {

  /** What each step puts, in order; most steps put nothing. */
  type Puts<!K, V> = seq<map<K, V>>

  predicate PutsAt<K(==), V>(log: Puts<K, V>, i: nat, k: K) {
    i < |log| && k in log[i]
  }

  /** Step i puts k and no later step does. */
  ghost predicate LastPut<K, V>(log: Puts<K, V>, i: nat, k: K) {
    PutsAt(log, i, k) && forall j: nat :: i < j ==> !PutsAt(log, j, k)
  }

  /** What a map holds when every step has written to it in turn. */
  function Replayed<K, V>(log: Puts<K, V>): map<K, V>
    decreases |log|
  {
    if log == [] then map[] else Replayed(log[..|log| - 1]) + log[|log| - 1]
  }

  lemma ReplayedOneMore<K, V>(log: Puts<K, V>, m: map<K, V>)
    ensures Replayed(log + [m]) == Replayed(log) + m
  {
    assert (log + [m])[..|log|] == log;
  }

  /** A map holds exactly the keys that were put, each as it was put last. */
  lemma {:induction false} ReplayedIsLastPut<K, V>(log: Puts<K, V>, k: K)
    ensures k in Replayed(log) <==> exists i: nat :: PutsAt(log, i, k)
    ensures forall i: nat :: LastPut(log, i, k) ==> k in Replayed(log) && Replayed(log)[k] == log[i][k]
    decreases |log|
  {
    if log != [] {
      var n := |log| - 1;
      var front := log[..n];
      ReplayedIsLastPut(front, k);
      assert forall j: nat :: j < n ==> (PutsAt(log, j, k) <==> PutsAt(front, j, k));
      if PutsAt(log, n, k) {
        assert k in log[n];
      } else {
        forall i: nat | LastPut(log, i, k) ensures LastPut(front, i, k) {
        }
      }
    }
  }

  /** A key that was put at all was put last somewhere. */
  lemma {:induction false} SomePutIsLast<K, V>(log: Puts<K, V>, i: nat, k: K) returns (last: nat)
    requires PutsAt(log, i, k)
    ensures LastPut(log, last, k) && i <= last
    decreases |log| - i
  {
    if j: nat :| i < j && PutsAt(log, j, k) {
      last := SomePutIsLast(log, j, k);
    } else {
      last := i;
    }
  }
}
