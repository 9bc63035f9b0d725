/** Python dictionaries as sequences of pairs, keeping insertion order. */
module Dicts {
  import opened Wrappers

  type Dict<K, V> = seq<(K, V)>

  function Keys<K, V>(d: Dict<K, V>): (ks: seq<K>)
    ensures |ks| == |d|
    ensures forall i :: 0 <= i < |d| ==> ks[i] == d[i].0
  {
    if d == [] then [] else [d[0].0] + Keys(d[1..])
  }

  predicate Distinct<T(==)>(s: seq<T>) {
    forall i, j :: 0 <= i < j < |s| ==> s[i] != s[j]
  }

  /** Every key occurs once, as in a Python dict. */
  predicate DistinctKeys<K(==), V>(d: Dict<K, V>) {
    Distinct(Keys(d))
  }

  /** `d.get(k)`. */
  function Get<K(==), V>(d: Dict<K, V>, k: K): (r: Option<V>)
    ensures r.None? <==> k !in Keys(d)
  {
    if d == [] then None else if d[0].0 == k then Some(d[0].1) else Get(d[1..], k)
  }

  /** `d[k] = v`: an existing key keeps its position and takes the new value, a new key goes last. */
  function Put<K(==), V>(d: Dict<K, V>, k: K, v: V): (r: Dict<K, V>)
  {
    if d == [] then [(k, v)] else if d[0].0 == k then [(k, v)] + d[1..] else [d[0]] + Put(d[1..], k, v)
  }

  /** After `d[k] = v` the key reads back as `v` and every other key reads as before. */
  lemma {:induction false} PutGet<K, V>(d: Dict<K, V>, k: K, v: V)
    ensures Get(Put(d, k, v), k) == Some(v)
    ensures forall j :: j != k ==> Get(Put(d, k, v), j) == Get(d, j)
  {
    if d != [] && d[0].0 != k {
      PutGet(d[1..], k, v);
    }
  }

  /** `d[k] = v` leaves the key order alone, or appends the new key at the end. */
  lemma {:induction false} PutKeys<K, V>(d: Dict<K, V>, k: K, v: V)
    ensures Keys(Put(d, k, v)) == if k in Keys(d) then Keys(d) else Keys(d) + [k]
    ensures k !in Keys(d) ==> Put(d, k, v) == d + [(k, v)]
  {
    if d != [] && d[0].0 != k {
      PutKeys(d[1..], k, v);
      assert Keys(d) == [d[0].0] + Keys(d[1..]);
      assert k in Keys(d) <==> k in Keys(d[1..]);
      assert Keys(Put(d, k, v)) == [d[0].0] + Keys(Put(d[1..], k, v));
      if k !in Keys(d) {
        assert [d[0]] + (d[1..] + [(k, v)]) == d + [(k, v)];
      }
    } else if d != [] {
      assert Keys(Put(d, k, v)) == [k] + Keys(d[1..]);
    }
  }

  /** Keys stay distinct under `d[k] = v`. */
  lemma PutDistinct<K, V>(d: Dict<K, V>, k: K, v: V)
    requires DistinctKeys(d)
    ensures DistinctKeys(Put(d, k, v))
  {
    PutKeys(d, k, v);
  }

  /** Reading a dict with one more pair at the end: earlier keys win, the new key is found last. */
  lemma {:induction false} GetAppend<K, V>(d: Dict<K, V>, k': K, v': V, k: K)
    ensures Get(d + [(k', v')], k) == if k in Keys(d) then Get(d, k) else if k == k' then Some(v') else None
  {
    if d == [] {
      assert d + [(k', v')] == [(k', v')];
    } else {
      assert (d + [(k', v')])[1..] == d[1..] + [(k', v')];
      assert Keys(d) == [d[0].0] + Keys(d[1..]);
      GetAppend(d[1..], k', v', k);
    }
  }

  /** `for k, v in pairs: d[k] = v`. */
  function PutAll<K(==), V>(d: Dict<K, V>, pairs: seq<(K, V)>): Dict<K, V> {
    if pairs == [] then d
    else
      var (k, v) := pairs[|pairs| - 1];
      Put(PutAll(d, pairs[..|pairs| - 1]), k, v)
  }

  /** The value of the last pair with key `k`, if any. */
  function LastValue<K(==), V>(pairs: seq<(K, V)>, k: K): (r: Option<V>)
    ensures r.None? <==> k !in Keys(pairs)
  {
    if pairs == [] then None
    else if pairs[|pairs| - 1].0 == k then Some(pairs[|pairs| - 1].1)
    else
      assert Keys(pairs) == Keys(pairs[..|pairs| - 1]) + [pairs[|pairs| - 1].0];
      LastValue(pairs[..|pairs| - 1], k)
  }

  /** The last pair with key `k` gives its value. */
  lemma {:induction false} LastValueIs<K, V>(pairs: seq<(K, V)>, i: nat)
    requires i < |pairs|
    requires forall j :: i < j < |pairs| ==> pairs[j].0 != pairs[i].0
    ensures LastValue(pairs, pairs[i].0) == Some(pairs[i].1)
  {
    if i < |pairs| - 1 {
      LastValueIs(pairs[..|pairs| - 1], i);
    }
  }

  lemma PutAllPrefix<K, V>(d: Dict<K, V>, pairs: seq<(K, V)>, i: nat)
    requires i < |pairs|
    ensures PutAll(d, pairs[..i + 1]) == Put(PutAll(d, pairs[..i]), pairs[i].0, pairs[i].1)
  {
    assert pairs[..i + 1][..i] == pairs[..i];
  }

  /** After the loop, a key reads as its last pair's value; a key no pair names reads as before. */
  lemma {:induction false} PutAllGet<K, V>(d: Dict<K, V>, pairs: seq<(K, V)>, k: K)
    ensures Get(PutAll(d, pairs), k) == if LastValue(pairs, k).Some? then LastValue(pairs, k) else Get(d, k)
  {
    if pairs != [] {
      var (k', v) := pairs[|pairs| - 1];
      PutAllGet(d, pairs[..|pairs| - 1], k);
      PutGet(PutAll(d, pairs[..|pairs| - 1]), k', v);
    }
  }

  /** The loop keeps a dict's keys distinct. */
  lemma {:induction false} PutAllDistinct<K, V>(d: Dict<K, V>, pairs: seq<(K, V)>)
    requires DistinctKeys(d)
    ensures DistinctKeys(PutAll(d, pairs))
  {
    if pairs != [] {
      PutAllDistinct(d, pairs[..|pairs| - 1]);
      PutDistinct(PutAll(d, pairs[..|pairs| - 1]), pairs[|pairs| - 1].0, pairs[|pairs| - 1].1);
    }
  }
}
