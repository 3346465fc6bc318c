/** Keys, values and sorted runs of entries.

    A key is modelled by its position in the total order of the key type. Every key
    type of the index is countable, so such positions can be taken from the reals. */
module Keys {
  type Key = real

  /** Values are only stored, cloned and returned. */
  type Value(==, !new)

  datatype Pair = Pair(key: Key, val: Value)

  /** Strictly ascending keys: the order `bulk_load` demands and iterators promise. */
  ghost predicate Ascending(pairs: seq<Pair>) {
    forall i, j :: 0 <= i < j < |pairs| ==> pairs[i].key < pairs[j].key
  }

  /** Some entry has key `k`. */
  ghost predicate HasKey(pairs: seq<Pair>, k: Key) {
    exists p :: p in pairs && p.key == k
  }

  lemma AscendingConcat(a: seq<Pair>, b: seq<Pair>)
    requires Ascending(a) && Ascending(b)
    requires forall p, q :: p in a && q in b ==> p.key < q.key
    ensures Ascending(a + b)
  {
    forall i, j | 0 <= i < j < |a + b| ensures (a + b)[i].key < (a + b)[j].key {
      if i < |a| <= j {
        assert a[i] in a && b[j - |a|] in b;
      }
    }
  }
}
