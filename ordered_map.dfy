/**
 * The part of JavaScript's `Map` that the history uses, for number keys: the
 * keys in insertion order together with their values, `get`, `set` (which
 * overwrites an existing key in place and appends a new one) and `delete`.
 */
module OrderedMap {
  import opened Wrappers

  /** A `Map` from numbers to `V`: `keys` is the iteration order of `map.keys()`. */
  datatype JsMap<V> = JsMap(keys: seq<int>, values: map<int, V>)

  /** No element twice. */
  predicate Distinct(s: seq<int>) {
    forall i, j :: 0 <= i < j < |s| ==> s[i] != s[j]
  }

  /** No key twice in the order, and exactly the stored keys in it. */
  ghost predicate Valid<V>(m: JsMap<V>) {
    Distinct(m.keys) && (forall k :: k in m.values <==> k in m.keys)
  }

  /** `map.size`. */
  function Size<V>(m: JsMap<V>): nat {
    |m.keys|
  }

  function Empty<V>(): (m: JsMap<V>)
    ensures Valid(m) && Size(m) == 0
  {
    JsMap([], map[])
  }

  /** `map.get(k)`: the value stored under `k`, or `undefined`. */
  function Get<V>(m: JsMap<V>, k: int): (r: Option<V>)
    ensures Valid(m) ==> (r.Some? <==> k in m.keys)
  {
    if k in m.values then Some(m.values[k]) else None
  }

  /** `map.set(k, v)`: overwrite the value of an existing key in place, or append a new key. */
  function Set<V>(m: JsMap<V>, k: int, v: V): (r: JsMap<V>)
    ensures Valid(m) ==> Valid(r)
    ensures Get(r, k) == Some(v)
    ensures forall other :: other != k ==> Get(r, other) == Get(m, other)
    ensures Valid(m) && k in m.keys ==> r.keys == m.keys && Size(r) == Size(m)
    ensures Valid(m) && k !in m.keys ==> r.keys == m.keys + [k] && Size(r) == Size(m) + 1
  {
    JsMap(if k in m.values then m.keys else m.keys + [k], m.values[k := v])
  }

  /** The sequence `s` without the element `k`. */
  function Without(s: seq<int>, k: int): (r: seq<int>)
    ensures forall x :: x in r <==> x in s && x != k
    ensures |r| <= |s|
  {
    if s == [] then []
    else (if s[0] == k then [] else [s[0]]) + Without(s[1..], k)
  }

  /** Removing an element that does not occur changes nothing. */
  lemma {:induction false} WithoutAbsent(s: seq<int>, k: int)
    requires k !in s
    ensures Without(s, k) == s
  {
    if s != [] {
      WithoutAbsent(s[1..], k);
    }
  }

  /** Removing an element keeps the others distinct. */
  lemma {:induction false} WithoutDistinct(s: seq<int>, k: int)
    ensures Distinct(s) ==> Distinct(Without(s, k))
  {
    if s != [] && Distinct(s) {
      assert Distinct(s[1..]);
      WithoutDistinct(s[1..], k);
      var rest := Without(s[1..], k);
      assert s[0] !in s[1..];
      var r := Without(s, k);
      assert r == (if s[0] == k then [] else [s[0]]) + rest;
      forall i, j | 0 <= i < j < |r| ensures r[i] != r[j] {
        if s[0] != k && i == 0 {
          assert r[j] == rest[j - 1];
          assert rest[j - 1] in rest;
        }
      }
    }
  }

  /** `map.delete(k)`: remove `k` and its value, if present. */
  function Delete<V>(m: JsMap<V>, k: int): (r: JsMap<V>)
    ensures Valid(m) ==> Valid(r)
    ensures Get(r, k) == None
    ensures forall other :: other != k ==> Get(r, other) == Get(m, other)
  {
    WithoutDistinct(m.keys, k);
    JsMap(Without(m.keys, k), m.values - {k})
  }

  /** Deleting the first key of `map.keys()` drops the oldest entry and keeps the order of the rest. */
  lemma DeleteOldest<V>(m: JsMap<V>)
    requires Valid(m) && Size(m) > 0
    ensures Delete(m, m.keys[0]).keys == m.keys[1..]
  {
    assert m.keys[0] !in m.keys[1..];
    WithoutAbsent(m.keys[1..], m.keys[0]);
  }
}
