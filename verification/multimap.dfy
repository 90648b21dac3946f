/** The relationship indices of git-graph.py (commit -> parents, tree -> subtrees,
    tree -> blobs) are dictionaries from a key to a list of values in which a value
    is recorded at most once and in the order it was first added. */
module Multimaps {

  predicate NoDups<V(==)>(s: seq<V>)
  {
    forall i, j :: 0 <= i < j < |s| ==> s[i] != s[j]
  }

  /** The values recorded under `k`; an absent key has none. */
  function Get<K, V>(m: map<K, seq<V>>, k: K): seq<V>
  {
    if k in m then m[k] else []
  }

  /** Every key present holds at least one value (keys are only created by an insertion). */
  ghost predicate NonEmptyValues<K, V>(m: map<K, seq<V>>)
  {
    forall k :: k in m ==> m[k] != []
  }

  /** The dictionary after `add_to_multimap(m, k, v)`. */
  function Insert<K, V(==)>(m: map<K, seq<V>>, k: K, v: V): (r: map<K, seq<V>>)
    ensures r.Keys == m.Keys + {k}
    ensures v in r[k] && forall x :: x in Get(m, k) ==> x in r[k]
  {
    if v in Get(m, k) then m else m[k := Get(m, k) + [v]]
  }

  /** Adding `v` under `k`: nothing changes when `v` was already there,
      otherwise `v` goes to the end of the list under `k`; every other key
      keeps its list, and neither duplicates nor empty lists appear. */
  lemma InsertSpec<K, V>(m: map<K, seq<V>>, k: K, v: V)
    ensures var r := Insert(m, k, v);
            && (v in Get(m, k) ==> r == m)
            && (v !in Get(m, k) ==> r[k] == Get(m, k) + [v])
            && (forall k' :: k' in m && k' != k ==> r[k'] == m[k'])
            && (NoDups(Get(m, k)) ==> NoDups(r[k]))
            && (NonEmptyValues(m) ==> NonEmptyValues(r))
  {
  }

  /** The values of `vs` in order of first occurrence, each once (see DedupSpec). */
  function Dedup<V(==)>(vs: seq<V>): (d: seq<V>)
    ensures |d| <= |vs|
    decreases |vs|
  {
    if vs == [] then []
    else
      var d := Dedup(vs[..|vs| - 1]);
      if vs[|vs| - 1] in d then d else d + [vs[|vs| - 1]]
  }

  /** Dedup keeps values in order of first occurrence: one more value is
      appended if it is new and dropped if it occurred before. */
  lemma DedupSnoc<V(!new)>(vs: seq<V>, x: V)
    ensures Dedup(vs + [x]) == if x in vs then Dedup(vs) else Dedup(vs) + [x]
  {
    assert (vs + [x])[..|vs|] == vs;
    DedupSpec(vs);
  }

  /** Dedup keeps exactly the values of its input, each once. */
  lemma {:induction false} DedupSpec<V(!new)>(vs: seq<V>)
    ensures NoDups(Dedup(vs))
    ensures forall v :: v in Dedup(vs) <==> v in vs
    decreases |vs|
  {
    if vs != [] {
      var init := vs[..|vs| - 1];
      DedupSpec(init);
      assert vs == init + [vs[|vs| - 1]];
    }
  }

  /** The dictionary after adding each of `vs` under `k`, first to last. */
  function InsertAll<K, V(==)>(m: map<K, seq<V>>, k: K, vs: seq<V>): (r: map<K, seq<V>>)
    ensures m.Keys <= r.Keys <= m.Keys + {k}
    ensures forall k' :: k' in m && k' != k ==> r[k'] == m[k']
    ensures forall x :: x in vs ==> k in r && x in r[k]
    decreases |vs|
  {
    if vs == [] then m else Insert(InsertAll(m, k, vs[..|vs| - 1]), k, vs[|vs| - 1])
  }

  /** A list that already holds no duplicates is left as it is by Dedup. */
  lemma {:induction false} DedupOfDistinct<V(!new)>(vs: seq<V>)
    requires NoDups(vs)
    ensures Dedup(vs) == vs
    decreases |vs|
  {
    if vs != [] {
      var init := vs[..|vs| - 1];
      assert NoDups(init);
      DedupOfDistinct(init);
      assert vs[|vs| - 1] !in init by {
        forall i | 0 <= i < |init| ensures init[i] != vs[|vs| - 1] {
          assert init[i] == vs[i];
        }
      }
      assert init + [vs[|vs| - 1]] == vs;
    }
  }

  /** Adding a list of values under a key not yet present records exactly the
      deduplicated list there, creates the key only when the list is non-empty,
      and leaves every other key as it was. */
  lemma {:induction false} InsertAllFresh<K, V(!new)>(m: map<K, seq<V>>, k: K, vs: seq<V>)
    requires k !in m
    ensures Get(InsertAll(m, k, vs), k) == Dedup(vs)
    ensures k in InsertAll(m, k, vs) <==> vs != []
    ensures forall k' :: k' != k ==> (k' in InsertAll(m, k, vs) <==> k' in m)
    ensures forall k' :: k' in m ==> InsertAll(m, k, vs)[k'] == m[k']
    decreases |vs|
  {
    if vs != [] {
      InsertAllFresh(m, k, vs[..|vs| - 1]);
      InsertSpec(InsertAll(m, k, vs[..|vs| - 1]), k, vs[|vs| - 1]);
    }
  }
}
