/** Orders and ordered iteration.  Rust's `BTreeSet` iterates in ascending order of the element
    type's derived `Ord`; the model reproduces that iteration with these helpers. */
module Orders {

  /** `key` separates the elements of `s`, so ordering by `key` is a strict total order on `s`. */
  predicate InjectiveOn<T(!new)>(s: set<T>, key: T -> int) {
    forall x, y :: x in s && y in s && key(x) == key(y) ==> x == y
  }

  predicate IsMinBy<T>(m: T, s: set<T>, key: T -> int) {
    m in s && forall y :: y in s ==> key(m) <= key(y)
  }

  lemma {:induction false} MinExists<T>(s: set<T>, key: T -> int)
    requires s != {}
    ensures exists m :: IsMinBy(m, s, key)
  {
    var x :| x in s;
    if s != {x} {
      MinExists(s - {x}, key);
      var m' :| IsMinBy(m', s - {x}, key);
      if key(x) <= key(m') { assert IsMinBy(x, s, key); } else { assert IsMinBy(m', s, key); }
    } else {
      assert IsMinBy(x, s, key);
    }
  }

  /** Position `i` of `r` has a smaller key than the later position `j`. */
  ghost predicate OrderedBy<T>(r: seq<T>, key: T -> int, i: int, j: int) {
    0 <= i < j < |r| ==> key(r[i]) < key(r[j])
  }

  /** `r` is strictly ascending by `key`; the pairwise facts are drawn out by naming a pair of
      positions with `OrderedBy`. */
  ghost predicate StrictlyAscendingBy<T>(r: seq<T>, key: T -> int) {
    forall i, j {:trigger OrderedBy(r, key, i, j)} :: OrderedBy(r, key, i, j)
  }

  /** Putting the least element in front of an ascending listing of the rest keeps it ascending. */
  lemma AscendingCons<T(!new)>(m: T, rest: seq<T>, s: set<T>, key: T -> int)
    requires InjectiveOn(s, key) && IsMinBy(m, s, key)
    requires forall x :: x in rest <==> x in s - {m}
    requires StrictlyAscendingBy(rest, key)
    ensures StrictlyAscendingBy([m] + rest, key)
  {
    var r := [m] + rest;
    forall i, j ensures OrderedBy(r, key, i, j) {
      if 0 <= i < j < |r| {
        assert r[j] == rest[j - 1] && rest[j - 1] in rest;
        if i == 0 {
          assert key(m) <= key(r[j]);
        } else {
          assert OrderedBy(rest, key, i - 1, j - 1);
        }
      }
    }
  }

  /** The elements of `s` in ascending order of `key`: what iterating a `BTreeSet` yields. */
  function SortedBy<T(!new)>(s: set<T>, key: T -> int): (r: seq<T>)
    requires InjectiveOn(s, key)
    ensures |r| == |s|
    ensures forall x :: x in r <==> x in s
    ensures StrictlyAscendingBy(r, key)
    decreases |s|
  {
    if s == {} then []
    else
      MinExists(s, key);
      var m :| IsMinBy(m, s, key);
      var rest := SortedBy(s - {m}, key);
      AscendingCons(m, rest, s, key);
      [m] + rest
  }

  /** A strictly ascending sequence holds no element twice. */
  lemma AscendingDistinct<T>(r: seq<T>, key: T -> int, i: int, j: int)
    requires StrictlyAscendingBy(r, key)
    requires 0 <= i < |r| && 0 <= j < |r| && i != j
    ensures r[i] != r[j]
  {
    assert OrderedBy(r, key, i, j) && OrderedBy(r, key, j, i);
  }

  /** Strict total order given as a relation, for types with no integer key (the LR items). */
  ghost predicate StrictTotalOrder<T(!new)>(less: (T, T) -> bool) {
    && (forall x :: !less(x, x))
    && (forall x, y, z :: less(x, y) && less(y, z) ==> less(x, z))
    && (forall x, y :: x != y ==> less(x, y) || less(y, x))
  }

  predicate IsLeast<T>(m: T, s: set<T>, less: (T, T) -> bool) {
    m in s && forall y :: y in s && y != m ==> less(m, y)
  }

  lemma {:induction false} LeastExists<T(!new)>(s: set<T>, less: (T, T) -> bool)
    requires StrictTotalOrder(less)
    requires s != {}
    ensures exists m :: IsLeast(m, s, less)
  {
    var x :| x in s;
    if s != {x} {
      LeastExists(s - {x}, less);
      var m' :| IsLeast(m', s - {x}, less);
      if less(x, m') {
        forall y | y in s && y != x ensures less(x, y) {
          if y != m' { assert less(m', y); }
        }
        assert IsLeast(x, s, less);
      } else {
        assert IsLeast(m', s, less);
      }
    } else {
      assert IsLeast(x, s, less);
    }
  }
}
