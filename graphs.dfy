/** Reachability in a directed graph whose nodes are the numbers below `n` and whose edges are
    given by a relation `conn`: the graph that SCC detection and the dependency flood fills work on. */
module Graphs {

  /** A non-empty walk through nodes below `n`, each step an edge. */
  ghost predicate IsPath(n: nat, conn: (nat, nat) -> bool, p: seq<nat>) {
    && |p| > 0
    && (forall i :: 0 <= i < |p| ==> p[i] < n)
    && (forall i: nat :: i < |p| - 1 ==> StepAt(conn, p, i))
  }

  /** The step from position `i` of `p` to the next is an edge. */
  ghost predicate StepAt(conn: (nat, nat) -> bool, p: seq<nat>, i: nat) {
    i + 1 < |p| && conn(p[i], p[i + 1])
  }

  ghost predicate Reaches(n: nat, conn: (nat, nat) -> bool, x: nat, y: nat) {
    exists p :: IsPath(n, conn, p) && p[0] == x && p[|p| - 1] == y
  }

  lemma ReachesRefl(n: nat, conn: (nat, nat) -> bool, x: nat)
    requires x < n
    ensures Reaches(n, conn, x, x)
  {
    assert IsPath(n, conn, [x]);
  }

  lemma ReachesEdge(n: nat, conn: (nat, nat) -> bool, x: nat, y: nat)
    requires x < n && y < n && conn(x, y)
    ensures Reaches(n, conn, x, y)
  {
    assert StepAt(conn, [x, y], 0);
    assert IsPath(n, conn, [x, y]);
  }

  lemma ReachesBounded(n: nat, conn: (nat, nat) -> bool, x: nat, y: nat)
    requires Reaches(n, conn, x, y)
    ensures x < n && y < n
  {
    var p :| IsPath(n, conn, p) && p[0] == x && p[|p| - 1] == y;
  }

  lemma ReachesTrans(n: nat, conn: (nat, nat) -> bool, x: nat, y: nat, z: nat)
    requires Reaches(n, conn, x, y) && Reaches(n, conn, y, z)
    ensures Reaches(n, conn, x, z)
  {
    var p :| IsPath(n, conn, p) && p[0] == x && p[|p| - 1] == y;
    var q :| IsPath(n, conn, q) && q[0] == y && q[|q| - 1] == z;
    var r := p + q[1..];
    forall i: nat | i < |r| - 1 ensures StepAt(conn, r, i) {
      if i < |p| - 1 {
        assert StepAt(conn, p, i);
        assert r[i] == p[i] && r[i + 1] == p[i + 1];
      } else {
        var j: nat := i - |p| + 1;
        assert StepAt(conn, q, j);
        assert r[i] == q[j] && r[i + 1] == q[j + 1];
      }
    }
    assert IsPath(n, conn, r);
  }

  lemma ReachesStep(n: nat, conn: (nat, nat) -> bool, x: nat, y: nat, z: nat)
    requires Reaches(n, conn, x, y) && y < n && z < n && conn(y, z)
    ensures Reaches(n, conn, x, z)
  {
    ReachesEdge(n, conn, y, z);
    ReachesTrans(n, conn, x, y, z);
  }

  /** Reachability depends only on the edges, not on how the relation is written. */
  lemma ReachesCongruent(n: nat, conn: (nat, nat) -> bool, conn': (nat, nat) -> bool, x: nat, y: nat)
    requires forall a, b :: conn(a, b) == conn'(a, b)
    ensures Reaches(n, conn, x, y) == Reaches(n, conn', x, y)
  {
    if Reaches(n, conn, x, y) {
      var p :| IsPath(n, conn, p) && p[0] == x && p[|p| - 1] == y;
      assert forall i: nat :: StepAt(conn, p, i) == StepAt(conn', p, i);
      assert IsPath(n, conn', p);
    }
    if Reaches(n, conn', x, y) {
      var p :| IsPath(n, conn', p) && p[0] == x && p[|p| - 1] == y;
      assert forall i: nat :: StepAt(conn, p, i) == StepAt(conn', p, i);
      assert IsPath(n, conn, p);
    }
  }

  /** Every node of `s` has all its successors in `s`. */
  ghost predicate Closed(n: nat, conn: (nat, nat) -> bool, s: set<nat>) {
    forall a: nat, b: nat :: a in s && b < n && conn(a, b) ==> b in s
  }

  /** Dropping the last node of a path leaves a path, and its last step is an edge. */
  lemma PathInit(n: nat, conn: (nat, nat) -> bool, p: seq<nat>)
    requires IsPath(n, conn, p) && |p| > 1
    ensures IsPath(n, conn, p[..|p| - 1])
    ensures conn(p[|p| - 2], p[|p| - 1])
  {
    var q := p[..|p| - 1];
    forall i: nat | i < |q| - 1 ensures StepAt(conn, q, i) {
      assert StepAt(conn, p, i);
    }
    var last: nat := |p| - 2;
    assert StepAt(conn, p, last);
  }

  lemma {:induction false} PathStaysInClosed(n: nat, conn: (nat, nat) -> bool, s: set<nat>, p: seq<nat>)
    requires Closed(n, conn, s) && IsPath(n, conn, p) && p[0] in s
    ensures p[|p| - 1] in s
    decreases |p|
  {
    if |p| > 1 {
      var q := p[..|p| - 1];
      PathInit(n, conn, p);
      PathStaysInClosed(n, conn, s, q);
    }
  }

  /** A closed set contains everything reachable from its members. */
  lemma ClosedContainsReach(n: nat, conn: (nat, nat) -> bool, s: set<nat>, x: nat, y: nat)
    requires Closed(n, conn, s) && x in s && Reaches(n, conn, x, y)
    ensures y in s
  {
    var p :| IsPath(n, conn, p) && p[0] == x && p[|p| - 1] == y;
    PathStaysInClosed(n, conn, s, p);
  }

  /** A map from node to successor set, read as an edge relation. */
  function EdgesOf(edge: map<nat, set<nat>>): (conn: (nat, nat) -> bool)
    ensures forall i, j :: conn(i, j) <==> i in edge && j in edge[i]
  {
    (i, j) => i in edge && j in edge[i]
  }
}
