/**
 * A JavaScript `Map` as an association list in insertion order: `set` on a
 * key already present replaces its value where it stands, `set` on a new key
 * appends it, and `keys()` lists the keys in the order they were first set.
 */
module JsMap {
  import opened JsValues
  import opened Seqs

  /** `[...m.keys()]`. */
  function Keys<K, V>(m: seq<(K, V)>): (ks: seq<K>)
    ensures |ks| == |m|
    ensures forall i :: 0 <= i < |m| ==> ks[i] == m[i].0
    decreases |m|
  {
    if |m| == 0 then [] else [m[0].0] + Keys(m[1..])
  }

  /** `m.get(k)`, `None` when `k` was never set. */
  function Get<K(==), V>(m: seq<(K, V)>, k: K): (o: Option<V>)
    ensures o.Some? <==> k in Keys(m)
    decreases |m|
  {
    if |m| == 0 then None
    else if m[0].0 == k then Some(m[0].1)
    else Get(m[1..], k)
  }

  /** `m.set(k, v)`. */
  function Set<K(==), V>(m: seq<(K, V)>, k: K, v: V): seq<(K, V)>
    decreases |m|
  {
    if |m| == 0 then [(k, v)]
    else if m[0].0 == k then [(k, v)] + m[1..]
    else [m[0]] + Set(m[1..], k, v)
  }

  /** After `m.set(k, v)`, `k` maps to `v`. */
  lemma {:induction false} SetGet<K, V>(m: seq<(K, V)>, k: K, v: V)
    ensures Get(Set(m, k, v), k) == Some(v)
    decreases |m|
  {
    if |m| > 0 && m[0].0 != k {
      SetGet(m[1..], k, v);
      assert Set(m, k, v)[1..] == Set(m[1..], k, v);
    }
  }

  /** `m.set(k, v)` leaves the value of every other key as it was. */
  lemma {:induction false} SetGetOther<K, V>(m: seq<(K, V)>, k: K, v: V, other: K)
    requires other != k
    ensures Get(Set(m, k, v), other) == Get(m, other)
    decreases |m|
  {
    if |m| > 0 && m[0].0 != k {
      SetGetOther(m[1..], k, v, other);
      assert Set(m, k, v)[1..] == Set(m[1..], k, v);
    }
  }

  /**
   * `m.set(k, v)` keeps a key already present in its place and puts a new
   * key last, so no key is ever listed twice.
   */
  lemma {:induction false} SetKeys<K, V>(m: seq<(K, V)>, k: K, v: V)
    requires Distinct(Keys(m))
    ensures Distinct(Keys(Set(m, k, v)))
    ensures Keys(Set(m, k, v)) == if k in Keys(m) then Keys(m) else Keys(m) + [k]
    decreases |m|
  {
    var r := Set(m, k, v);
    if |m| == 0 {
    } else if m[0].0 == k {
      assert r[1..] == m[1..];
      assert Keys(r) == Keys(m);
    } else {
      assert Keys(m) == [m[0].0] + Keys(m[1..]);
      var rest := Set(m[1..], k, v);
      SetKeys(m[1..], k, v);
      assert r[1..] == rest;
      assert Keys(r) == [m[0].0] + Keys(rest);
      if k !in Keys(m) {
        assert Keys(r) == Keys(m) + [k];
      }
    }
  }
}
