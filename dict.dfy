/**
 * A Python `dict` as the model sees it: an association list in insertion order.
 * Lookups find the first entry with the key; a well-formed dict has distinct keys,
 * so the first entry is the only one.
 */
module Dict {
  import opened Wrappers

  type Dict<K, V> = seq<(K, V)>

  /** The keys in iteration (insertion) order. */
  function Keys<K, V>(d: Dict<K, V>): (r: seq<K>)
    ensures |r| == |d|
    ensures forall i :: 0 <= i < |d| ==> r[i] == d[i].0
  {
    if d == [] then [] else [d[0].0] + Keys(d[1..])
  }

  /** The values in iteration order, as `list(d.values())`. */
  function Values<K, V>(d: Dict<K, V>): (r: seq<V>)
    ensures |r| == |d|
    ensures forall i :: 0 <= i < |d| ==> r[i] == d[i].1
  {
    if d == [] then [] else [d[0].1] + Values(d[1..])
  }

  predicate HasKey<K(==), V>(d: Dict<K, V>, k: K) {
    exists i :: 0 <= i < |d| && d[i].0 == k
  }

  predicate Distinct<T(==)>(s: seq<T>) {
    forall i, j :: 0 <= i < j < |s| ==> s[i] != s[j]
  }

  /** A dict that Python could hold: no key twice. */
  predicate WellFormed<K(==), V>(d: Dict<K, V>) {
    Distinct(Keys(d))
  }

  /** Membership of a key in a non-empty dict: at its head or in its tail. */
  lemma TailHasKey<K, V>(d: Dict<K, V>, k: K)
    requires d != []
    ensures HasKey(d, k) <==> d[0].0 == k || HasKey(d[1..], k)
  {
    if HasKey(d[1..], k) {
      var i :| 0 <= i < |d[1..]| && d[1..][i].0 == k;
      assert d[i + 1].0 == k;
    }
    if HasKey(d, k) && d[0].0 != k {
      var i :| 0 <= i < |d| && d[i].0 == k;
      assert d[1..][i - 1].0 == k;
    }
  }

  /** The tail of a well-formed dict is well-formed and does not hold the head's key. */
  lemma TailWellFormed<K, V>(d: Dict<K, V>)
    requires d != [] && WellFormed(d)
    ensures WellFormed(d[1..]) && d[0].0 !in Keys(d[1..])
  {
    var ks := Keys(d);
    var ts := Keys(d[1..]);
    assert ks == [d[0].0] + ts;
    forall i, j | 0 <= i < j < |ts| ensures ts[i] != ts[j] {
      assert ts[i] == ks[i + 1] && ts[j] == ks[j + 1];
    }
    forall i | 0 <= i < |ts| ensures ts[i] != d[0].0 {
      assert ts[i] == ks[i + 1] && d[0].0 == ks[0];
    }
  }

  /** `d[k]` when `k in d`, and None where Python raises KeyError. */
  function Get<K(==), V>(d: Dict<K, V>, k: K): (r: Option<V>)
    ensures r.Some? <==> HasKey(d, k)
    ensures r.Some? <==> k in Keys(d)
    ensures r.Some? ==> r.value in Values(d)
    ensures r.Some? ==> exists i :: 0 <= i < |d| && d[i] == (k, r.value)
    ensures WellFormed(d) ==> forall i :: 0 <= i < |d| && d[i].0 == k ==> r == Some(d[i].1)
  {
    if d == [] then None
    else if d[0].0 == k then Some(d[0].1)
    else
      TailHasKey(d, k);
      assert Keys(d) == [d[0].0] + Keys(d[1..]);
      assert Values(d) == [d[0].1] + Values(d[1..]);
      assert WellFormed(d) ==> WellFormed(d[1..]) by {
        if WellFormed(d) { TailWellFormed(d); }
      }
      var r := Get(d[1..], k);
      if r.Some? then
        assert exists i :: 0 <= i < |d| && d[i] == (k, r.value) by {
          var i :| 0 <= i < |d[1..]| && d[1..][i] == (k, r.value);
          assert d[i + 1] == (k, r.value);
        }
        r
      else
        r
  }
}
