/** Maps from keys to sets (src/data_structure/map_set.rs).  `MapSet<K, V>` stores a set of `V`
    per key; the nested form stores a `MapSet<K2, V>` per key.  A key absent from `content` reads
    as the empty set. */
module MapSets {
  import opened Wrappers
  import opened Joinable

  /** `entry(k).or_default()` for the nested form. */
  function NestedEntry<K, K2, V>(m: map<K, map<K2, set<V>>>, k: K): (r: map<K2, set<V>>)
    ensures k in m ==> r == m[k]
    ensures k !in m ==> r == map[]
  {
    if k in m then m[k] else map[]
  }

  /** `MapSet::new(key, values)`: one key, holding the values. */
  function Single<K, V>(key: K, values: set<V>): (r: map<K, set<V>>)
    ensures r.Keys == {key}
    ensures r[key] == values
  {
    map[key := SetAppend({}, values)]
  }

  /** `add`: `value` joins the set under `key`; every other key keeps its set. */
  function Added<K, V>(m: map<K, set<V>>, key: K, value: V): (r: map<K, set<V>>)
    ensures r.Keys == m.Keys + {key}
    ensures value in r[key] && Entry(m, key) <= r[key] && r[key] - {value} <= Entry(m, key)
    ensures forall k :: k in m && k != key ==> r[k] == m[k]
  {
    m[key := SetInsert(Entry(m, key), value)]
  }

  /** `append`: the set under `key` becomes its old contents together with `values`. */
  function Appended<K, V>(m: map<K, set<V>>, key: K, values: set<V>): (r: map<K, set<V>>)
    ensures r.Keys == m.Keys + {key}
    ensures r[key] == Entry(m, key) + values
    ensures forall k :: k in m && k != key ==> r[k] == m[k]
  {
    m[key := SetAppend(Entry(m, key), values)]
  }

  /** Adding one value is appending the set of just that value. */
  lemma AddedIsAppended<K, V>(m: map<K, set<V>>, key: K, value: V)
    ensures Added(m, key, value) == Appended(m, key, {value})
  {
    assert SetInsert(Entry(m, key), value) == SetAppend(Entry(m, key), {value});
  }

  /** `join(output, source)`: nothing happens when `source` has no entry; otherwise the set under
      `source` is added to the set under `output`. */
  function Joined<K, V>(m: map<K, set<V>>, output: K, source: K): (r: map<K, set<V>>)
    ensures source !in m ==> r == m
    ensures source in m ==> r.Keys == m.Keys + {output} && r[output] == Entry(m, output) + m[source]
    ensures forall k :: k in m && k != output ==> r[k] == m[k]
  {
    if source !in m then m else m[output := SetAppend(Entry(m, output), m[source])]
  }

  /** `aggregate(keys)`: a fold over the keys, in order, that unions the sets of the keys
      present and skips the others.  The fold starts from `Some` and never produces `None`. */
  function Aggregate<K, V(!new)>(m: map<K, set<V>>, keys: seq<K>): (r: Option<set<V>>)
    ensures r.Some?
    ensures forall v :: v in r.value <==> exists i :: 0 <= i < |keys| && keys[i] in m && v in m[keys[i]]
  {
    if keys == [] then Some({})
    else
      var prev := Aggregate(m, keys[..|keys| - 1]);
      var last := keys[|keys| - 1];
      var r := if last in m then Some(prev.value + m[last]) else prev;
      assert forall i :: 0 <= i < |keys| - 1 ==> keys[..|keys| - 1][i] == keys[i];
      r
  }

  /** `all()`: the union of every stored set. */
  function All<K, V(!new)>(m: map<K, set<V>>): (r: Option<set<V>>)
    ensures r.Some?
    ensures forall v :: v in r.value <==> exists k :: k in m && v in m[k]
  {
    Some(set k, v | k in m && v in m[k] :: v)
  }

  /** Whatever keys are aggregated, the result lies within `all()`. */
  lemma AggregateWithinAll<K, V(!new)>(m: map<K, set<V>>, keys: seq<K>)
    ensures Aggregate(m, keys).value <= All(m).value
  {
    forall v | v in Aggregate(m, keys).value ensures v in All(m).value {
      var i :| 0 <= i < |keys| && keys[i] in m && v in m[keys[i]];
    }
  }

  /** Keys listed twice or in another order aggregate to the same union. */
  lemma AggregateOrderFree<K, V(!new)>(m: map<K, set<V>>, keys: seq<K>, keys': seq<K>)
    requires forall k :: k in keys <==> k in keys'
    ensures Aggregate(m, keys) == Aggregate(m, keys')
  {
    var a, b := Aggregate(m, keys).value, Aggregate(m, keys').value;
    forall v | v in a ensures v in b {
      var i :| 0 <= i < |keys| && keys[i] in m && v in m[keys[i]];
      assert keys[i] in keys';
      var j :| 0 <= j < |keys'| && keys'[j] == keys[i];
    }
    forall v | v in b ensures v in a {
      var j :| 0 <= j < |keys'| && keys'[j] in m && v in m[keys'[j]];
      assert keys'[j] in keys;
      var i :| 0 <= i < |keys| && keys[i] == keys'[j];
    }
    assert a == b;
  }

  /** `add_once(key, sub_key, value)` on the nested form: `value` joins the set at
      `[key][sub_key]`, and no other set changes. */
  function AddedOnce<K, K2, V>(m: map<K, map<K2, set<V>>>, key: K, sub: K2, value: V): (r: map<K, map<K2, set<V>>>)
    ensures r.Keys == m.Keys + {key}
    ensures r[key].Keys == NestedEntry(m, key).Keys + {sub}
    ensures r[key][sub] == Entry(NestedEntry(m, key), sub) + {value}
    ensures forall s :: s in NestedEntry(m, key) && s != sub ==> r[key][s] == m[key][s]
    ensures forall k :: k in m && k != key ==> r[k] == m[k]
  {
    var inner := NestedEntry(m, key);
    m[key := inner[sub := SetInsert(Entry(inner, sub), value)]]
  }

  /** A map from keys to sets, updated in place. */
  class MapSet<K(==), V(==)> {
    var content: map<K, set<V>>

    constructor ()
      ensures content == map[]
    {
      content := map[];
    }

    constructor New(key: K, values: set<V>)
      ensures content == Single(key, values)
    {
      content := Single(key, values);
    }

    function Get(key: K): (r: set<V>)
      reads this
      ensures key in content ==> r == content[key]
      ensures key !in content ==> r == {}
    {
      Entry(content, key)
    }

    method Add(key: K, value: V)
      modifies this
      ensures content == Added(old(content), key, value)
    {
      content := Added(content, key, value);
    }

    method Append(key: K, values: set<V>)
      modifies this
      ensures content == Appended(old(content), key, values)
    {
      content := Appended(content, key, values);
    }

    method Join(output: K, source: K)
      modifies this
      ensures content == Joined(old(content), output, source)
    {
      content := Joined(content, output, source);
    }
  }

  /** A map from keys to map-sets, updated in place. */
  class NestedMapSet<K(==), K2(==), V(==)> {
    var content: map<K, map<K2, set<V>>>

    constructor ()
      ensures content == map[]
    {
      content := map[];
    }

    function Get(key: K): (r: map<K2, set<V>>)
      reads this
      ensures key in content ==> r == content[key]
      ensures key !in content ==> r == map[]
    {
      NestedEntry(content, key)
    }

    method AddOnce(key: K, sub: K2, value: V)
      modifies this
      ensures content == AddedOnce(old(content), key, sub, value)
    {
      content := AddedOnce(content, key, sub, value);
    }

    /** `append(key, values)`: the map-set under `key` absorbs `values` key by key. */
    method Append(key: K, values: map<K2, set<V>>)
      modifies this
      ensures content == old(content)[key := PointwiseUnion(NestedEntry(old(content), key), values)]
    {
      var merged := MapSetAppend(NestedEntry(content, key), values);
      content := content[key := merged];
    }

    /** `join(output, source)`: no-op without a `source` entry, else the map-set under `output`
        absorbs the one under `source`. */
    method Join(output: K, source: K)
      modifies this
      ensures source !in old(content) ==> content == old(content)
      ensures source in old(content) ==>
        content == old(content)[output := PointwiseUnion(NestedEntry(old(content), output), old(content)[source])]
    {
      if source in content {
        var first := content[source];
        var merged := MapSetAppend(NestedEntry(content, output), first);
        content := content[output := merged];
      }
    }
  }
}
