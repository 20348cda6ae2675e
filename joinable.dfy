/** The `JoinAble` containers (src/data_structure/joinable.rs): a set, and a map from keys to
    sets, either of which can absorb another of its kind or take in one element. */
module Joinable {

  /** `entry(k).or_default()`: the set stored under `k`, or the empty set. */
  function Entry<K, V>(m: map<K, set<V>>, k: K): (r: set<V>)
    ensures k in m ==> r == m[k]
    ensures k !in m ==> r == {}
  {
    if k in m then m[k] else {}
  }

  /** `HashSet::append` extends the set with every element of `other`. */
  function SetAppend<V>(s: set<V>, other: set<V>): (r: set<V>)
    ensures s <= r && other <= r
    ensures r - other <= s
  {
    s + other
  }

  /** Appending the same set twice is the same as appending it once. */
  lemma SetAppendIdempotent<V>(s: set<V>, other: set<V>)
    ensures SetAppend(SetAppend(s, other), other) == SetAppend(s, other)
  {
  }

  /** `HashSet::insert` adds the element and nothing else. */
  function SetInsert<V>(s: set<V>, v: V): (r: set<V>)
    ensures v in r && s <= r
    ensures r - {v} <= s
  {
    s + {v}
  }

  /** The map-set obtained by unioning `b`'s sets into `a`'s, key by key. */
  ghost function PointwiseUnion<K, V>(a: map<K, set<V>>, b: map<K, set<V>>): (r: map<K, set<V>>)
    ensures r.Keys == a.Keys + b.Keys
    ensures forall k :: k in r ==> r[k] == Entry(a, k) + Entry(b, k)
  {
    map k | k in a.Keys + b.Keys :: Entry(a, k) + Entry(b, k)
  }

  /** `MapSet::append`: for each key of `other`, its set is appended to the entry of `self`
      under that key (created empty if missing). */
  method MapSetAppend<K, V>(self: map<K, set<V>>, other: map<K, set<V>>) returns (r: map<K, set<V>>)
    ensures r == PointwiseUnion(self, other)
  {
    r := self;
    var todo := other.Keys;
    while todo != {}
      invariant todo <= other.Keys
      invariant r.Keys == self.Keys + (other.Keys - todo)
      invariant forall k :: k in r ==> r[k] == Entry(self, k) + (if k in todo then {} else Entry(other, k))
      decreases todo
    {
      var key :| key in todo;
      // the entry under `key`, created empty if missing, extended by `other[key]`
      var r' := r[key := Entry(r, key) + other[key]];
      forall k | k in r' ensures r'[k] == Entry(self, k) + (if k in todo - {key} then {} else Entry(other, k)) {
        if k != key { assert r'[k] == r[k]; }
      }
      r, todo := r', todo - {key};
    }
    MapSetAppendDone(self, other, r);
  }

  lemma MapSetAppendDone<K, V>(self: map<K, set<V>>, other: map<K, set<V>>, r: map<K, set<V>>)
    requires r.Keys == self.Keys + other.Keys
    requires forall k :: k in r ==> r[k] == Entry(self, k) + Entry(other, k)
    ensures r == PointwiseUnion(self, other)
  {
    var u := PointwiseUnion(self, other);
    assert r.Keys == u.Keys;
    forall k | k in r ensures r[k] == u[k] { }
  }

  /** `MapSet::insert((k, s))` appends `s` to the entry under `k` and changes no other key. */
  function MapSetInsert<K, V>(self: map<K, set<V>>, k: K, s: set<V>): (r: map<K, set<V>>)
    ensures r.Keys == self.Keys + {k}
    ensures Entry(r, k) == Entry(self, k) + s
    ensures forall k' :: k' in self && k' != k ==> r[k'] == self[k']
  {
    self[k := SetAppend(Entry(self, k), s)]
  }

  /** Appending a map-set twice is the same as appending it once. */
  lemma PointwiseUnionIdempotent<K, V>(a: map<K, set<V>>, b: map<K, set<V>>)
    ensures PointwiseUnion(PointwiseUnion(a, b), b) == PointwiseUnion(a, b)
  {
  }
}
