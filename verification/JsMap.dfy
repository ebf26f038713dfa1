/** The insertion-ordered `Map` of the source: a sequence of entries with distinct keys.
    Setting a present key keeps its place; setting a new key appends; deleting closes the gap. */
module JsMap {
  import opened Filters

  type Entries<K, V> = seq<(K, V)>

  ghost predicate Distinct<K, V>(m: Entries<K, V>) {
    forall i, j :: 0 <= i < j < |m| ==> m[i].0 != m[j].0
  }

  /** The position of a key, or the length when it is absent. */
  function IndexOf<K(==), V>(m: Entries<K, V>, k: K): (i: nat)
    ensures i <= |m|
    ensures i < |m| ==> m[i].0 == k
    ensures forall j :: 0 <= j < i ==> m[j].0 != k
  {
    if m == [] || m[0].0 == k then 0 else IndexOf(m[1..], k) + 1
  }

  predicate Has<K(==), V>(m: Entries<K, V>, k: K) {
    IndexOf(m, k) < |m|
  }

  function Get<K(==), V>(m: Entries<K, V>, k: K): V
    requires Has(m, k)
  {
    m[IndexOf(m, k)].1
  }

  function Set<K(==), V>(m: Entries<K, V>, k: K, v: V): Entries<K, V> {
    if Has(m, k) then m[IndexOf(m, k) := (k, v)] else m + [(k, v)]
  }

  function Delete<K(==), V>(m: Entries<K, V>, k: K): Entries<K, V> {
    if Has(m, k) then m[..IndexOf(m, k)] + m[IndexOf(m, k) + 1..] else m
  }

  function Keys<K, V>(m: Entries<K, V>): (r: seq<K>)
    ensures |r| == |m| && forall i :: 0 <= i < |m| ==> r[i] == m[i].0
  {
    seq(|m|, i requires 0 <= i < |m| => m[i].0)
  }

  function Values<K, V>(m: Entries<K, V>): (r: seq<V>)
    ensures |r| == |m| && forall i :: 0 <= i < |m| ==> r[i] == m[i].1
  {
    seq(|m|, i requires 0 <= i < |m| => m[i].1)
  }

  /** The map without its order. */
  ghost function Content<K, V>(m: Entries<K, V>): map<K, V> {
    map k | k in Keys(m) :: Get(m, k)
  }

  lemma HasIffKey<K, V>(m: Entries<K, V>, k: K)
    ensures Has(m, k) <==> k in Keys(m)
    ensures Has(m, k) <==> k in Content(m)
  {
    if Has(m, k) {
      assert Keys(m)[IndexOf(m, k)] == k;
    }
  }

  lemma GetAt<K, V>(m: Entries<K, V>, i: nat)
    requires Distinct(m) && i < |m|
    ensures IndexOf(m, m[i].0) == i && Has(m, m[i].0) && Get(m, m[i].0) == m[i].1
  {
  }

  lemma SetLookup<K, V>(m: Entries<K, V>, k: K, v: V, x: K)
    requires Distinct(m)
    ensures Has(Set(m, k, v), x) <==> x == k || Has(m, x)
    ensures Has(Set(m, k, v), x) ==> Get(Set(m, k, v), x) == if x == k then v else Get(m, x)
  {
    var m' := Set(m, k, v);
    SetDistinct(m, k, v);
    assert m'[IndexOf(m, k)] == (k, v);
    if x == k {
      GetAt(m', IndexOf(m, k));
    } else {
      if Has(m, x) {
        assert m'[IndexOf(m, x)] == m[IndexOf(m, x)];
        GetAt(m', IndexOf(m, x));
      }
      if Has(m', x) {
        assert m'[IndexOf(m', x)] == m[IndexOf(m', x)];
        GetAt(m, IndexOf(m', x));
      }
    }
  }

  lemma SetDistinct<K, V>(m: Entries<K, V>, k: K, v: V)
    requires Distinct(m)
    ensures Distinct(Set(m, k, v))
  {
  }

  /** Order-free reading of `Set`. */
  lemma SetContent<K, V>(m: Entries<K, V>, k: K, v: V)
    requires Distinct(m)
    ensures Distinct(Set(m, k, v))
    ensures Content(Set(m, k, v)) == Content(m)[k := v]
  {
    hide Set;
    var m' := Set(m, k, v);
    SetDistinct(m, k, v);
    forall x
      ensures x in Content(m') <==> x in Content(m)[k := v]
      ensures x in Content(m') ==> Content(m')[x] == Content(m)[k := v][x]
    {
      SetLookup(m, k, v, x);
      HasIffKey(m', x);
      HasIffKey(m, x);
    }
    assert Content(m') == Content(m)[k := v];
  }

  lemma DeleteLookup<K, V>(m: Entries<K, V>, k: K, x: K)
    requires Distinct(m)
    ensures Has(Delete(m, k), x) <==> x != k && Has(m, x)
    ensures Has(Delete(m, k), x) ==> Get(Delete(m, k), x) == Get(m, x)
  {
    var m', at := Delete(m, k), IndexOf(m, k);
    if Has(m', x) {
      var i := IndexOf(m', x);
      var j := if i < at then i else i + 1;
      assert m'[i] == m[j];
      GetAt(m, j);
    }
    if Has(m, x) && x != k {
      var i := IndexOf(m, x);
      assert m'[if i < at then i else i - 1].0 == x;
    }
  }

  /** Order-free reading of `Delete`. */
  lemma DeleteContent<K, V>(m: Entries<K, V>, k: K)
    requires Distinct(m)
    ensures Distinct(Delete(m, k))
    ensures Content(Delete(m, k)) == Content(m) - {k}
  {
    hide Delete;
    var m' := Delete(m, k);
    forall x
      ensures x in Content(m') <==> x in Content(m) - {k}
      ensures x in Content(m') ==> Content(m')[x] == (Content(m) - {k})[x]
    {
      HasIffKey(m', x);
      HasIffKey(m, x);
      DeleteLookup(m, k, x);
    }
    assert Content(m') == Content(m) - {k};
    DeleteDistinct(m, k);
  }

  lemma DeleteDistinct<K, V>(m: Entries<K, V>, k: K)
    requires Distinct(m)
    ensures Distinct(Delete(m, k))
  {
    var at := IndexOf(m, k);
    var m' := Delete(m, k);
    if at < |m| {
      assert forall i :: 0 <= i < |m'| ==> m'[i] == m[if i < at then i else i + 1];
    }
  }

  /** Setting a present key keeps its place; a new key goes to the end. */
  lemma SetOrder<K, V>(m: Entries<K, V>, k: K, v: V)
    ensures Keys(Set(m, k, v)) == if k in Keys(m) then Keys(m) else Keys(m) + [k]
  {
    HasIffKey(m, k);
  }

  /** Deleting a key keeps the others in their order. */
  lemma DeleteOrder<K, V>(m: Entries<K, V>, k: K)
    requires Distinct(m)
    ensures Keys(Delete(m, k)) == Filter(Keys(m), x => x != k)
  {
    if Has(m, k) {
      var at := IndexOf(m, k);
      var low, high := m[..at], m[at + 1..];
      assert m == low + ([m[at]] + high) && Delete(m, k) == low + high;
      KeysConcat(low, [m[at]] + high);
      KeysConcat([m[at]], high);
      KeysConcat(low, high);
      KeysApart(m, k);
      WithoutOne(Keys(low), k, Keys(high));
    } else {
      HasIffKey(m, k);
      FilterAll(Keys(m), x => x != k);
    }
  }

  lemma KeysConcat<K, V>(a: Entries<K, V>, b: Entries<K, V>)
    ensures Keys(a + b) == Keys(a) + Keys(b)
  {
  }

  lemma KeysApart<K, V>(m: Entries<K, V>, k: K)
    requires Distinct(m) && Has(m, k)
    ensures var at := IndexOf(m, k);
            Keys([m[at]]) == [k] && k !in Keys(m[..at]) && k !in Keys(m[at + 1..])
  {
  }

  lemma WithoutOne<K>(low: seq<K>, k: K, high: seq<K>)
    requires k !in low && k !in high
    ensures Filter(low + ([k] + high), x => x != k) == low + high
  {
    FilterConcat(low, [k] + high, x => x != k);
    FilterFront([k] + high, x => x != k);
    assert ([k] + high)[1..] == high;
    FilterAll(low, x => x != k);
    FilterAll(high, x => x != k);
    assert [] + high == high;
  }
}
