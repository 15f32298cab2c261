/**
 * PHP arrays with string keys, as the registry uses them: a list of entries
 * in the order their keys were first inserted. Assigning to an existing key
 * replaces its value in place; a new key goes last.
 */
module OrderedMaps {
  import opened Wrappers

  datatype Entry<V> = Entry(key: string, value: V)

  type OrderedMap<V> = seq<Entry<V>>

  function Keys<V>(m: OrderedMap<V>): (r: seq<string>)
    ensures |r| == |m| && forall i :: 0 <= i < |m| ==> r[i] == m[i].key
  {
    seq(|m|, i requires 0 <= i < |m| => m[i].key)
  }

  /** `array_values`: the values in order. */
  function Values<V>(m: OrderedMap<V>): (r: seq<V>)
    ensures |r| == |m| && forall i :: 0 <= i < |m| ==> r[i] == m[i].value
  {
    seq(|m|, i requires 0 <= i < |m| => m[i].value)
  }

  /** Where `key` sits, if anywhere. */
  function Find<V>(m: OrderedMap<V>, key: string): (r: Option<nat>)
    ensures r.Some? ==> r.value < |m| && m[r.value].key == key
    ensures r.Some? ==> forall j :: 0 <= j < r.value ==> m[j].key != key
    ensures r.None? ==> forall j :: 0 <= j < |m| ==> m[j].key != key
  {
    if m == [] then None
    else if m[0].key == key then Some(0)
    else
      var rest := Find(m[1..], key);
      if rest.Some? then Some(rest.value + 1) else None
  }

  /** `$array[$key] ?? null`. */
  function Get<V>(m: OrderedMap<V>, key: string): (r: Option<V>)
    ensures r.None? <==> forall j :: 0 <= j < |m| ==> m[j].key != key
    ensures r.Some? ==> exists j :: 0 <= j < |m| && m[j] == Entry(key, r.value)
  {
    var i := Find(m, key);
    if i.Some? then Some(m[i.value].value) else None
  }

  /** `$array[$key] = $value`. */
  function Put<V>(m: OrderedMap<V>, key: string, value: V): (r: OrderedMap<V>)
    ensures Get(r, key) == Some(value)
    ensures forall k :: k != key ==> Get(r, k) == Get(m, k)
    ensures Get(m, key).Some? ==> Keys(r) == Keys(m)
    ensures Get(m, key).None? ==> r == m + [Entry(key, value)]
  {
    var i := Find(m, key);
    if i.Some? then
      var r := m[i.value := Entry(key, value)];
      assert Find(r, key) == i by { FindAfterUpdate(m, i.value, key, value); }
      forall k | k != key ensures Get(r, k) == Get(m, k) {
        FindOtherAfterUpdate(m, i.value, key, value, k);
      }
      r
    else
      var r := m + [Entry(key, value)];
      assert Find(r, key) == Some(|m|) by { FindAfterAppend(m, key, value, key); }
      forall k | k != key ensures Get(r, k) == Get(m, k) {
        FindAfterAppend(m, key, value, k);
      }
      r
  }

  lemma {:induction false} FindAfterUpdate<V>(m: OrderedMap<V>, i: nat, key: string, value: V)
    requires Find(m, key) == Some(i)
    ensures Find(m[i := Entry(key, value)], key) == Some(i)
    decreases |m|
  {
    if i > 0 {
      var r := m[i := Entry(key, value)];
      assert r[1..] == m[1..][i - 1 := Entry(key, value)];
      FindAfterUpdate(m[1..], i - 1, key, value);
    }
  }

  lemma {:induction false} FindOtherAfterUpdate<V>(m: OrderedMap<V>, i: nat, key: string, value: V, k: string)
    requires i < |m| && m[i].key == key && k != key
    ensures Find(m[i := Entry(key, value)], k) == Find(m, k)
    ensures Get(m[i := Entry(key, value)], k) == Get(m, k)
    decreases |m|
  {
    var r := m[i := Entry(key, value)];
    if i > 0 && m[0].key != k {
      assert r[1..] == m[1..][i - 1 := Entry(key, value)];
      FindOtherAfterUpdate(m[1..], i - 1, key, value, k);
    }
  }

  lemma {:induction false} FindAfterAppend<V>(m: OrderedMap<V>, key: string, value: V, k: string)
    requires Find(m, key).None?
    ensures Find(m + [Entry(key, value)], k) == if k == key then Some(|m|) else Find(m, k)
    ensures k != key ==> Get(m + [Entry(key, value)], k) == Get(m, k)
    decreases |m|
  {
    var r := m + [Entry(key, value)];
    if m != [] && m[0].key != k {
      assert r[1..] == m[1..] + [Entry(key, value)];
      FindAfterAppend(m[1..], key, value, k);
    }
  }

  /** Assigning a key the map does not hold appends it. */
  lemma PutAbsent<V>(m: OrderedMap<V>, key: string, value: V)
    requires forall j :: 0 <= j < |m| ==> m[j].key != key
    ensures Put(m, key, value) == m + [Entry(key, value)]
  {
    assert Get(m, key).None?;
  }

  /** Every key occurs once. */
  predicate DistinctKeys<V>(m: OrderedMap<V>)
  {
    forall i, j :: 0 <= i < j < |m| ==> m[i].key != m[j].key
  }

  /** Assignment never creates a second entry for a key. */
  lemma PutKeepsKeysDistinct<V>(m: OrderedMap<V>, key: string, value: V)
    requires DistinctKeys(m)
    ensures DistinctKeys(Put(m, key, value))
  {
    var r := Put(m, key, value);
    assert Keys(r) == Keys(m) || r == m + [Entry(key, value)];
    forall i, j | 0 <= i < j < |r| ensures r[i].key != r[j].key {
      assert r[i].key == Keys(r)[i] && r[j].key == Keys(r)[j];
      if Keys(r) != Keys(m) && j == |m| {
        assert r == m + [Entry(key, value)];
        assert Get(m, key).None?;
      }
    }
  }
}
