/** The rule dependency graph (src/rule_depend.rs): variables are nodes, `A -> B` when some rule
    for `A` starts with `B`; the strongly connected groups of it are collapsed into one node each,
    and the resulting group graph answers reachability queries. */
module RuleDepend {
  import opened Wrappers
  import opened Syntax
  import opened Graphs
  import Orders
  import Tarjan

  /** `r` is a rule for `a` whose output starts with the variable `b`. */
  predicate Leads(r: Rule, a: Variable, b: Variable) {
    r.clause == a && |r.output| > 0 && r.output[0] == Var(b)
  }

  /** Some rule of `edges` is a rule for `a` that starts with `b`. */
  function AnyLeads(edges: seq<Rule>, a: Variable, b: Variable): (r: bool)
    ensures r <==> exists i :: 0 <= i < |edges| && Leads(edges[i], a, b)
  {
    if edges == [] then false
    else if Leads(edges[0], a, b) then true
    else
      assert forall i :: 1 <= i < |edges| ==> edges[i] == edges[1..][i - 1];
      AnyLeads(edges[1..], a, b)
  }

  /** The edge relation handed to the SCC search: node `u` depends on node `v`.  Nodes outside
      `nodes` are never connected (the search only asks about nodes below `|nodes|`). */
  function IsConnect(edges: seq<Rule>, nodes: seq<Variable>, u: nat, v: nat): (b: bool)
    ensures b <==> u < |nodes| && v < |nodes| && exists i :: 0 <= i < |edges| && Leads(edges[i], nodes[u], nodes[v])
  {
    u < |nodes| && v < |nodes| && AnyLeads(edges, nodes[u], nodes[v])
  }

  /** A rule with empty output connects its clause to nothing. */
  lemma EmptyOutputNeverLeads(r: Rule, a: Variable, b: Variable)
    requires r.output == []
    ensures !Leads(r, a, b)
  {
  }

  /** Position `i` of `s` holds a smaller number than the later position `j`. */
  ghost predicate Ordered(s: seq<nat>, i: int, j: int) {
    0 <= i < j < |s| ==> s[i] < s[j]
  }

  /** `s` is strictly ascending (instantiated only where a pair of positions is named). */
  ghost predicate Increasing(s: seq<nat>) {
    forall i, j {:trigger Ordered(s, i, j)} :: Ordered(s, i, j)
  }

  lemma IncreasingSnoc(s: seq<nat>, x: nat)
    requires Increasing(s) && forall k :: 0 <= k < |s| ==> s[k] < x
    ensures Increasing(s + [x])
  {
    var t := s + [x];
    forall i, j ensures Ordered(t, i, j) {
      if 0 <= i < j < |s| {
        assert Ordered(s, i, j);
      }
    }
  }

  /** The ids of a `BTreeSet<usize>` in iteration order. */
  function SortedNats(s: set<nat>): (r: seq<nat>)
    ensures |r| == |s|
    ensures forall x :: x in r <==> x in s
    ensures Increasing(r)
  {
    var key := (x: nat) => x as int;
    assert Orders.InjectiveOn(s, key);
    var r := Orders.SortedBy(s, key);
    IncreasingByValue(r, key);
    r
  }

  /** Iterating a `BTreeSet<usize>`: every id once, in ascending order. */
  method AscendingIds(s: set<nat>) returns (r: seq<nat>)
    ensures |r| == |s|
    ensures forall x :: x in r <==> x in s
    ensures Increasing(r)
  {
    r := SortedNats(s);
  }

  lemma IncreasingByValue(r: seq<nat>, key: nat -> int)
    requires forall x :: key(x) == x as int
    requires Orders.StrictlyAscendingBy(r, key)
    ensures Increasing(r)
  {
    forall i, j ensures Ordered(r, i, j) {
      assert Orders.OrderedBy(r, key, i, j);
    }
  }

  function VariableKey(v: Variable): int {
    v.symbol as int
  }

  /** The variables of a `BTreeSet<Variable>` in iteration order (by char). */
  function SortedVariables(s: set<Variable>): (r: seq<Variable>)
    ensures |r| == |s|
    ensures forall x :: x in r <==> x in s
    ensures forall i, j :: 0 <= i < j < |r| ==> r[i].symbol < r[j].symbol
  {
    assert Orders.InjectiveOn(s, VariableKey);
    var r := Orders.SortedBy(s, VariableKey);
    forall i, j | 0 <= i < j < |r| ensures r[i].symbol < r[j].symbol {
      assert Orders.OrderedBy(r, VariableKey, i, j);
    }
    r
  }

  /** Some node of `group1` is connected to some node of `group2`. */
  ghost predicate Linked(group1: set<nat>, group2: set<nat>, rules: seq<Rule>, variables: seq<Variable>) {
    exists i, j :: i in group1 && j in group2 && IsConnect(rules, variables, i, j)
  }

  method CheckEdge(group1: set<nat>, group2: set<nat>, rules: seq<Rule>, variables: seq<Variable>) returns (b: bool)
    ensures b <==> Linked(group1, group2, rules, variables)
  {
    var firsts := AscendingIds(group1);
    var seconds := AscendingIds(group2);
    for a := 0 to |firsts|
      invariant forall a', j :: 0 <= a' < a && j in group2 ==> !IsConnect(rules, variables, firsts[a'], j)
    {
      for c := 0 to |seconds|
        invariant forall c' :: 0 <= c' < c ==> !IsConnect(rules, variables, firsts[a], seconds[c'])
      {
        if IsConnect(rules, variables, firsts[a], seconds[c]) {
          return true;
        }
      }
    }
    return false;
  }

  /** The group graph has the edge `i -> j`: distinct groups with a connection from `i` into `j`. */
  ghost predicate GroupEdge(nodeGroup: seq<set<nat>>, rules: seq<Rule>, variables: seq<Variable>, i: nat, j: nat) {
    i < |nodeGroup| && j < |nodeGroup| && i != j && Linked(nodeGroup[i], nodeGroup[j], rules, variables)
  }

  /** Builds the group graph.  A group gets a key only once it has a successor. */
  method CheckEdges(nodeGroup: seq<set<nat>>, rules: seq<Rule>, variables: seq<Variable>) returns (edge: map<nat, set<nat>>)
    ensures forall i :: i in edge ==> i < |nodeGroup| && edge[i] != {}
    ensures forall i: nat, j: nat {:trigger j in edge[i]} {:trigger GroupEdge(nodeGroup, rules, variables, i, j)} ::
              (i in edge && j in edge[i]) <==> GroupEdge(nodeGroup, rules, variables, i, j)
  {
    edge := map[];
    for i := 0 to |nodeGroup|
      invariant forall k :: k in edge ==> k < i && edge[k] != {}
      invariant forall k: nat, j: nat {:trigger j in edge[k]} {:trigger GroupEdge(nodeGroup, rules, variables, k, j)} ::
                  k < i ==> ((k in edge && j in edge[k]) <==> GroupEdge(nodeGroup, rules, variables, k, j))
    {
      ghost var before := edge;
      edge := LinkRow(edge, nodeGroup, rules, variables, i);
      RowAdded(nodeGroup, rules, variables, before, LinkedGroups(nodeGroup, rules, variables, i), i);
    }
  }

  /** The groups other than `i` that `check_edge` links `i` to. */
  ghost function LinkedGroups(nodeGroup: seq<set<nat>>, rules: seq<Rule>, variables: seq<Variable>, i: nat): (r: set<nat>)
    ensures forall j: nat :: j in r <==> GroupEdge(nodeGroup, rules, variables, i, j)
  {
    set j: nat | j < |nodeGroup| && GroupEdge(nodeGroup, rules, variables, i, j)
  }

  /** The inner loop of `check_edges`: every group `check_edge` links `i` to is inserted under `i`,
      which gets a key with its first successor. */
  method LinkRow(edge: map<nat, set<nat>>, nodeGroup: seq<set<nat>>, rules: seq<Rule>, variables: seq<Variable>, i: nat)
    returns (r: map<nat, set<nat>>)
    requires i < |nodeGroup| && i !in edge
    ensures var row := LinkedGroups(nodeGroup, rules, variables, i);
      r == if row == {} then edge else edge[i := row]
  {
    r := edge;
    ghost var row: set<nat> := {};
    for j := 0 to |nodeGroup|
      invariant r == if row == {} then edge else edge[i := row]
      invariant forall j': nat {:trigger j' in row} {:trigger GroupEdge(nodeGroup, rules, variables, i, j')} ::
                  j' in row <==> (j' < j && GroupEdge(nodeGroup, rules, variables, i, j'))
    {
      if i == j {
        continue;
      }
      var linked := CheckEdge(nodeGroup[i], nodeGroup[j], rules, variables);
      if linked {
        r := r[i := (if i in r then r[i] else {}) + {j}];
        row := row + {j};
      }
    }
    assert row == LinkedGroups(nodeGroup, rules, variables, i);
  }

  /** Adding group `i`'s successors, when it has any, to the graph of the groups before it gives the
      graph of the groups up to `i`. */
  lemma RowAdded(nodeGroup: seq<set<nat>>, rules: seq<Rule>, variables: seq<Variable>,
                 before: map<nat, set<nat>>, row: set<nat>, i: nat)
    requires forall k :: k in before ==> k < i && before[k] != {}
    requires forall k: nat, j: nat {:trigger j in before[k]} {:trigger GroupEdge(nodeGroup, rules, variables, k, j)} ::
               k < i ==> ((k in before && j in before[k]) <==> GroupEdge(nodeGroup, rules, variables, k, j))
    requires forall j: nat {:trigger j in row} {:trigger GroupEdge(nodeGroup, rules, variables, i, j)} ::
               j in row <==> GroupEdge(nodeGroup, rules, variables, i, j)
    ensures var edge := if row == {} then before else before[i := row];
      && (forall k :: k in edge ==> k < i + 1 && edge[k] != {})
      && (forall k: nat, j: nat {:trigger j in edge[k]} {:trigger GroupEdge(nodeGroup, rules, variables, k, j)} ::
            k < i + 1 ==> ((k in edge && j in edge[k]) <==> GroupEdge(nodeGroup, rules, variables, k, j)))
  {
  }

  /** Group `i` holds a node whose variable is `v`. */
  ghost predicate Names(nodeGroup: seq<set<nat>>, variables: seq<Variable>, i: nat, v: Variable) {
    i < |nodeGroup| && exists x :: x in nodeGroup[i] && x < |variables| && variables[x] == v
  }

  /** One of the first `k` numbers of `ids` names `v`. */
  ghost predicate NamedAmong(ids: seq<nat>, variables: seq<Variable>, k: nat, v: Variable) {
    exists k' :: 0 <= k' < k && k' < |ids| && ids[k'] < |variables| && variables[ids[k']] == v
  }

  /** Some group before `upto` names `v`. */
  ghost predicate NamedBefore(nodeGroup: seq<set<nat>>, variables: seq<Variable>, upto: nat, v: Variable) {
    exists i: nat :: i < upto && Names(nodeGroup, variables, i, v)
  }

  /** The inner step of the fold: every variable numbered in `ids` is mapped to `id`. */
  method IndexGroup(indexing: map<Variable, nat>, ids: seq<nat>, variables: seq<Variable>, id: nat)
    returns (r: map<Variable, nat>)
    requires forall k :: 0 <= k < |ids| ==> ids[k] < |variables|
    ensures forall v :: v in r <==> v in indexing || NamedAmong(ids, variables, |ids|, v)
    ensures forall v :: v in r ==> r[v] == if NamedAmong(ids, variables, |ids|, v) then id else indexing[v]
  {
    r := indexing;
    for k := 0 to |ids|
      invariant forall v :: v in r <==> v in indexing || NamedAmong(ids, variables, k, v)
      invariant forall v :: v in r ==> r[v] == if NamedAmong(ids, variables, k, v) then id else indexing[v]
    {
      r := r[variables[ids[k]] := id];
      forall v ensures NamedAmong(ids, variables, k + 1, v) <==> NamedAmong(ids, variables, k, v) || v == variables[ids[k]] {
        if NamedAmong(ids, variables, k + 1, v) && v != variables[ids[k]] {
          var k' :| 0 <= k' < k + 1 && k' < |ids| && ids[k'] < |variables| && variables[ids[k']] == v;
          assert NamedAmong(ids, variables, k, v);
        }
      }
    }
  }

  /** The fold building `indexing`: every variable is mapped to the group holding it, a later group
      overwriting an earlier one. */
  method IndexGroups(nodeGroup: seq<set<nat>>, variables: seq<Variable>) returns (indexing: map<Variable, nat>)
    requires forall i, x :: 0 <= i < |nodeGroup| && x in nodeGroup[i] ==> x < |variables|
    ensures forall v :: v in indexing <==> NamedBefore(nodeGroup, variables, |nodeGroup|, v)
    ensures forall v :: v in indexing ==> Names(nodeGroup, variables, indexing[v], v)
    ensures forall v, i :: v in indexing && indexing[v] < i < |nodeGroup| ==> !Names(nodeGroup, variables, i, v)
  {
    indexing := map[];
    for id := 0 to |nodeGroup|
      invariant forall v :: v in indexing <==> NamedBefore(nodeGroup, variables, id, v)
      invariant forall v :: v in indexing ==> indexing[v] < id && Names(nodeGroup, variables, indexing[v], v)
      invariant forall v, i :: v in indexing && indexing[v] < i < id ==> !Names(nodeGroup, variables, i, v)
    {
      var ids := AscendingIds(nodeGroup[id]);
      assert forall k :: 0 <= k < |ids| ==> ids[k] in nodeGroup[id];
      var next := IndexGroup(indexing, ids, variables, id);
      NamedAmongGroup(nodeGroup, variables, id, ids);
      NamedBeforeNext(nodeGroup, variables, id);
      indexing := next;
    }
  }

  lemma NamedAmongGroup(nodeGroup: seq<set<nat>>, variables: seq<Variable>, id: nat, ids: seq<nat>)
    requires id < |nodeGroup| && forall x :: x in nodeGroup[id] <==> x in ids
    ensures forall v :: NamedAmong(ids, variables, |ids|, v) <==> Names(nodeGroup, variables, id, v)
  {
    forall v | Names(nodeGroup, variables, id, v) ensures NamedAmong(ids, variables, |ids|, v) {
      var x :| x in nodeGroup[id] && x < |variables| && variables[x] == v;
      var k :| 0 <= k < |ids| && ids[k] == x;
    }
  }

  lemma NamedBeforeNext(nodeGroup: seq<set<nat>>, variables: seq<Variable>, id: nat)
    ensures forall v :: NamedBefore(nodeGroup, variables, id + 1, v) <==> NamedBefore(nodeGroup, variables, id, v) || Names(nodeGroup, variables, id, v)
  {
    forall v | NamedBefore(nodeGroup, variables, id + 1, v) && !Names(nodeGroup, variables, id, v)
      ensures NamedBefore(nodeGroup, variables, id, v)
    {
      var i: nat :| i < id + 1 && Names(nodeGroup, variables, i, v);
    }
  }

  /** The SCC search's edge relation on node numbers. */
  function Conn(rules: seq<Rule>, variables: seq<Variable>): (conn: (nat, nat) -> bool)
    ensures forall a, b :: conn(a, b) == IsConnect(rules, variables, a, b)
  {
    (a: nat, b: nat) => IsConnect(rules, variables, a, b)
  }

  /** The strongly connected components of the variables under `IsConnect`, in reverse topological
      order. */
  method Groups(rules: seq<Rule>, variables: seq<Variable>) returns (nodeGroup: seq<set<nat>>)
    ensures Tarjan.SccDecomposition(|variables|, Conn(rules, variables), nodeGroup)
  {
    var tarjan := new Tarjan.Tarjan<Rule, Variable>(rules, variables, IsConnect);
    nodeGroup := tarjan.Run();
    assert tarjan.emitted == nodeGroup;
    Tarjan.DecompositionCongruent(|variables|, tarjan.Conn(), Conn(rules, variables), nodeGroup);
  }

  /** The graph built by `RuleGraph::new`: the variables, their strongly connected groups, where
      each variable went, and the group graph. */
  datatype RuleGraph = RuleGraph(nodeGroup: seq<set<nat>>, rules: seq<Rule>, indexing: map<Variable, nat>,
                                 variables: seq<Variable>, edge: map<nat, set<nat>>)

  /** The variables are the rule clauses, each once, in ascending order. */
  ghost predicate VariablesOk(g: RuleGraph) {
    && (forall i, j :: 0 <= i < j < |g.variables| ==> g.variables[i].symbol < g.variables[j].symbol)
    && (forall v :: v in g.variables <==> exists r :: r in g.rules && r.clause == v)
  }

  /** `indexing` sends each variable to the group holding its number. */
  ghost predicate IndexingOk(g: RuleGraph) {
    && (forall v :: v in g.indexing <==> v in g.variables)
    && (forall v :: v in g.indexing ==> g.indexing[v] < |g.nodeGroup|)
    && (forall x :: 0 <= x < |g.variables| ==> g.variables[x] in g.indexing && x in g.nodeGroup[g.indexing[g.variables[x]]])
  }

  /** `edge` holds exactly the links between distinct groups, with no empty successor sets. */
  ghost predicate EdgeOk(g: RuleGraph) {
    && (forall i :: i in g.edge ==> i < |g.nodeGroup| && g.edge[i] != {})
    && (forall i: nat, j: nat {:trigger j in g.edge[i]} {:trigger GroupEdge(g.nodeGroup, g.rules, g.variables, i, j)} ::
          (i in g.edge && j in g.edge[i]) <==> GroupEdge(g.nodeGroup, g.rules, g.variables, i, j))
  }

  /** The graph is well formed over some partition of the variables into groups, not necessarily
      the strongly connected ones: what the reachability queries rely on. */
  ghost predicate GroupsOk(g: RuleGraph) {
    && VariablesOk(g)
    && Tarjan.Partition(|g.variables|, g.nodeGroup)
    && IndexingOk(g)
    && EdgeOk(g)
  }

  /** What `new` establishes. */
  ghost predicate GraphOk(g: RuleGraph) {
    && VariablesOk(g)
    && Tarjan.SccDecomposition(|g.variables|, Conn(g.rules, g.variables), g.nodeGroup)
    && IndexingOk(g)
    && EdgeOk(g)
  }

  method New(rules: seq<Rule>) returns (g: RuleGraph)
    ensures g.rules == rules
    ensures GraphOk(g)
  {
    var variables := SortedVariables(set r | r in rules :: r.clause);
    var nodeGroup := Groups(rules, variables);
    var indexing := IndexGroups(nodeGroup, variables);
    var edge := CheckEdges(nodeGroup, rules, variables);
    g := RuleGraph(nodeGroup, rules, indexing, variables, edge);
    IndexingFindsGroup(g);
  }

  /** With the groups a partition of the numbered, distinct variables, each variable is mapped to the
      group of its number. */
  lemma IndexingFindsGroup(g: RuleGraph)
    requires forall i, j :: 0 <= i < j < |g.variables| ==> g.variables[i].symbol < g.variables[j].symbol
    requires Tarjan.Partition(|g.variables|, g.nodeGroup)
    requires forall v :: v in g.indexing <==> NamedBefore(g.nodeGroup, g.variables, |g.nodeGroup|, v)
    requires forall v :: v in g.indexing ==> Names(g.nodeGroup, g.variables, g.indexing[v], v)
    ensures forall v :: v in g.indexing <==> v in g.variables
    ensures forall v :: v in g.indexing ==> g.indexing[v] < |g.nodeGroup|
    ensures forall x :: 0 <= x < |g.variables| ==> g.variables[x] in g.indexing && x in g.nodeGroup[g.indexing[g.variables[x]]]
  {
    forall v | v in g.indexing ensures v in g.variables && g.indexing[v] < |g.nodeGroup| {
      assert Names(g.nodeGroup, g.variables, g.indexing[v], v);
    }
    forall x | 0 <= x < |g.variables| ensures g.variables[x] in g.indexing && x in g.nodeGroup[g.indexing[g.variables[x]]] {
      var v := g.variables[x];
      assert Tarjan.InSome(g.nodeGroup, |g.nodeGroup|, x);
      var i :| 0 <= i < |g.nodeGroup| && x in g.nodeGroup[i];
      assert Names(g.nodeGroup, g.variables, i, v);
      assert NamedBefore(g.nodeGroup, g.variables, |g.nodeGroup|, v);
      assert Names(g.nodeGroup, g.variables, g.indexing[v], v);
      var y :| y in g.nodeGroup[g.indexing[v]] && y < |g.variables| && g.variables[y] == v;
      SortedVariablesDistinct(g.variables, x, y);
    }
    forall v | v in g.variables ensures v in g.indexing {
      var x :| 0 <= x < |g.variables| && g.variables[x] == v;
    }
  }

  lemma SortedVariablesDistinct(variables: seq<Variable>, x: nat, y: nat)
    requires forall i, j :: 0 <= i < j < |variables| ==> variables[i].symbol < variables[j].symbol
    requires x < |variables| && y < |variables| && variables[x] == variables[y]
    ensures x == y
  {
  }

  /** `f` applied to each of `ids` in turn, the results laid end to end. */
  function Concat<T>(ids: seq<nat>, f: nat -> seq<T>): (r: seq<T>)
    ensures ids == [] ==> r == []
  {
    if ids == [] then [] else Concat(ids[..|ids| - 1], f) + f(ids[|ids| - 1])
  }

  /** No value occurs twice in `s`. */
  ghost predicate Distinct<T>(s: seq<T>) {
    forall w :: w in s ==> multiset(s)[w] <= 1
  }

  /** No value is produced for two different positions of `ids`. */
  ghost predicate Separate<T>(ids: seq<nat>, f: nat -> seq<T>) {
    forall k, l, w :: 0 <= k < |ids| && 0 <= l < |ids| && k != l && w in f(ids[k]) ==> w !in f(ids[l])
  }

  lemma {:induction false} ConcatMember<T>(ids: seq<nat>, f: nat -> seq<T>, w: T)
    ensures w in Concat(ids, f) <==> exists k :: 0 <= k < |ids| && w in f(ids[k])
    decreases |ids|
  {
    if ids != [] {
      var init := ids[..|ids| - 1];
      ConcatMember(init, f, w);
      assert forall k :: 0 <= k < |init| ==> init[k] == ids[k];
    }
  }

  lemma {:induction false} ConcatDistinct<T>(ids: seq<nat>, f: nat -> seq<T>)
    requires forall k :: 0 <= k < |ids| ==> Distinct(f(ids[k]))
    requires Separate(ids, f)
    ensures Distinct(Concat(ids, f))
    decreases |ids|
  {
    if ids != [] {
      var init, last := ids[..|ids| - 1], ids[|ids| - 1];
      assert forall k :: 0 <= k < |init| ==> init[k] == ids[k];
      ConcatDistinct(init, f);
      var front, back := Concat(init, f), f(last);
      forall w | w in front ensures w !in back {
        ConcatMember(init, f, w);
        var k :| 0 <= k < |init| && w in f(init[k]);
      }
      DistinctAppend(front, back);
    }
  }

  lemma DistinctAppend<T>(s: seq<T>, t: seq<T>)
    requires Distinct(s) && Distinct(t)
    requires forall w :: w in s ==> w !in t
    ensures Distinct(s + t)
  {
    assert multiset(s + t) == multiset(s) + multiset(t);
  }

  lemma DistinctSnoc<T>(s: seq<T>, x: T)
    requires Distinct(s) && x !in s
    ensures Distinct(s + [x])
  {
    assert multiset(s + [x]) == multiset(s) + multiset{x};
  }

  /** Every edge of `edge` runs between nodes below `n`. */
  ghost predicate EdgesWithin(edge: map<nat, set<nat>>, n: nat) {
    forall i, j {:trigger j in edge[i]} :: i in edge && j in edge[i] ==> i < n && j < n
  }

  /** `x` is reachable in the group graph from one of `seeds`. */
  ghost predicate FromSeeds(n: nat, edge: map<nat, set<nat>>, seeds: seq<nat>, x: nat) {
    exists s {:trigger Reaches(n, EdgesOf(edge), s, x)} :: s in seeds && Reaches(n, EdgesOf(edge), s, x)
  }

  /** What the flood fill keeps while it runs: every node seen is reachable from a seed, `checked`
      holds exactly the emitted nodes, each emitted once, and every successor of a checked node is
      checked or still waiting in `nodes`. */
  ghost predicate FloodInv(n: nat, edge: map<nat, set<nat>>, seeds: seq<nat>, nodes: seq<nat>, checked: set<nat>, order: seq<nat>) {
    && (forall x :: x in nodes ==> x < n && FromSeeds(n, edge, seeds, x))
    && (forall x :: x in checked <==> x in order)
    && (forall x :: x in checked ==> x < n && FromSeeds(n, edge, seeds, x))
    && |checked| <= n
    && Distinct(order)
    && (forall x, y {:trigger y in edge[x]} :: x in checked && x in edge && y in edge[x] ==> y in checked || y in nodes)
    && (forall s {:trigger Covered(s, checked, nodes)} :: s in seeds ==> Covered(s, checked, nodes))
  }

  /** `s` has been checked or is still to be popped. */
  ghost predicate Covered(s: nat, checked: set<nat>, nodes: seq<nat>) {
    s in checked || s in nodes
  }

  lemma FloodStart(n: nat, edge: map<nat, set<nat>>, seeds: seq<nat>)
    requires forall k :: 0 <= k < |seeds| ==> seeds[k] < n
    ensures FloodInv(n, edge, seeds, seeds, {}, [])
  {
    forall x | x in seeds ensures x < n && FromSeeds(n, edge, seeds, x) && Covered(x, {}, seeds) {
      ReachesRefl(n, EdgesOf(edge), x);
    }
  }

  /** Popping a node that was already checked. */
  lemma FloodSkip(n: nat, edge: map<nat, set<nat>>, seeds: seq<nat>, nodes: seq<nat>, checked: set<nat>, order: seq<nat>)
    requires FloodInv(n, edge, seeds, nodes, checked, order)
    requires nodes != [] && nodes[|nodes| - 1] in checked
    ensures FloodInv(n, edge, seeds, nodes[..|nodes| - 1], checked, order)
  {
    var node, init := nodes[|nodes| - 1], nodes[..|nodes| - 1];
    assert nodes == init + [node];
    forall x | x in init ensures x < n && FromSeeds(n, edge, seeds, x) {
      assert x in nodes;
    }
    forall x, y | x in checked && x in edge && y in edge[x] ensures y in checked || y in init {
      assert y in checked || y in nodes;
    }
    forall s | s in seeds ensures Covered(s, checked, init) {
      assert Covered(s, checked, nodes);
    }
  }

  /** Popping an unchecked node: it is checked and emitted, and its successors are pushed. */
  lemma FloodVisit(n: nat, edge: map<nat, set<nat>>, seeds: seq<nat>, nodes: seq<nat>, checked: set<nat>, order: seq<nat>, nexts: seq<nat>)
    requires EdgesWithin(edge, n)
    requires FloodInv(n, edge, seeds, nodes, checked, order)
    requires nodes != [] && nodes[|nodes| - 1] !in checked
    requires forall y :: y in nexts <==> nodes[|nodes| - 1] in edge && y in edge[nodes[|nodes| - 1]]
    ensures FloodInv(n, edge, seeds, nodes[..|nodes| - 1] + nexts, checked + {nodes[|nodes| - 1]}, order + [nodes[|nodes| - 1]])
  {
    var node, init := nodes[|nodes| - 1], nodes[..|nodes| - 1];
    var nodes', checked' := init + nexts, checked + {node};
    assert nodes == init + [node];
    assert node in nodes;
    assert FromSeeds(n, edge, seeds, node);
    forall y | y in nexts ensures y < n && FromSeeds(n, edge, seeds, y) {
      assert y in edge[node];
      var s :| s in seeds && Reaches(n, EdgesOf(edge), s, node);
      ReachesStep(n, EdgesOf(edge), s, node, y);
    }
    forall x | x in nodes' ensures x < n && FromSeeds(n, edge, seeds, x) {
      if x !in nexts {
        assert x in nodes;
      }
    }
    Tarjan.BoundedCard(checked', n);
    DistinctSnoc(order, node);
    forall x, y | x in checked' && x in edge && y in edge[x] ensures y in checked' || y in nodes' {
      if x == node {
        assert y in nexts;
      } else {
        assert y in checked || y in nodes;
      }
    }
    forall s | s in seeds ensures Covered(s, checked', nodes') {
      assert Covered(s, checked, nodes);
    }
  }

  /** With nothing left to pop, the checked nodes are exactly those reachable from a seed. */
  lemma FloodDone(n: nat, edge: map<nat, set<nat>>, seeds: seq<nat>, checked: set<nat>, order: seq<nat>)
    requires FloodInv(n, edge, seeds, [], checked, order)
    ensures forall x: nat :: x in order <==> x < n && FromSeeds(n, edge, seeds, x)
  {
    forall x: nat | x < n && FromSeeds(n, edge, seeds, x) ensures x in checked {
      var s :| s in seeds && Reaches(n, EdgesOf(edge), s, x);
      assert Covered(s, checked, []);
      ClosedContainsReach(n, EdgesOf(edge), checked, s, x);
    }
  }

  /** The work-list flood fill shared by `get`, `gets_var` and `gets_rule`: nodes are popped from the
      end of `nodes`, each unchecked one is emitted and its successors pushed in ascending order.
      `order` is the order in which the nodes were emitted. */
  method Flood<T>(n: nat, edge: map<nat, set<nat>>, seeds: seq<nat>, emit: nat -> seq<T>)
    returns (output: seq<T>, ghost order: seq<nat>)
    requires EdgesWithin(edge, n)
    requires forall k :: 0 <= k < |seeds| ==> seeds[k] < n
    ensures forall x: nat :: x in order <==> x < n && FromSeeds(n, edge, seeds, x)
    ensures Distinct(order)
    ensures output == Concat(order, emit)
  {
    var nodes: seq<nat> := seeds;
    var checked: set<nat> := {};
    output, order := [], [];
    FloodStart(n, edge, seeds);
    while nodes != []
      invariant FloodInv(n, edge, seeds, nodes, checked, order)
      invariant output == Concat(order, emit)
      decreases n - |checked|, |nodes|
    {
      var node := nodes[|nodes| - 1];
      if node in checked {
        FloodSkip(n, edge, seeds, nodes, checked, order);
        nodes := nodes[..|nodes| - 1];
        continue;
      }
      var nexts := Successors(edge, node);
      FloodVisit(n, edge, seeds, nodes, checked, order, nexts);
      nodes := nodes[..|nodes| - 1] + nexts;
      checked := checked + {node};
      order := order + [node];
      output := output + emit(node);
    }
    FloodDone(n, edge, seeds, checked, order);
  }

  lemma {:induction false} AscendingDistinct(s: seq<nat>)
    requires Increasing(s)
    ensures Distinct(s)
    decreases |s|
  {
    if s != [] {
      var init, last := s[..|s| - 1], s[|s| - 1];
      forall i, j ensures Ordered(init, i, j) {
        assert Ordered(s, i, j);
      }
      AscendingDistinct(init);
      forall k | 0 <= k < |init| ensures init[k] != last {
        assert Ordered(s, k, |s| - 1);
      }
      assert s == init + [last];
      DistinctSnoc(init, last);
    }
  }

  /** Two positions of a duplicate-free sequence hold different values. */
  lemma DistinctIndices<T>(s: seq<T>, k: nat, l: nat)
    requires Distinct(s) && k < |s| && l < |s| && k != l
    ensures s[k] != s[l]
  {
    if k < l { CountPair(s, k, l); } else { CountPair(s, l, k); }
  }

  lemma CountPair<T>(s: seq<T>, lo: nat, hi: nat)
    requires lo < hi < |s|
    ensures multiset(s)[s[lo]] >= if s[lo] == s[hi] then 2 else 1
  {
    var front, back := s[..hi], s[hi..];
    assert s == front + back;
    assert front[lo] == s[lo] && back[0] == s[hi];
    assert s[lo] in multiset(front) && s[hi] in multiset(back);
    assert multiset(s) == multiset(front) + multiset(back);
  }

  /** The numbers of group `node` in ascending order (none past the last group). */
  function GroupIds(g: RuleGraph, node: nat): (ids: seq<nat>)
    ensures forall x :: x in ids <==> node < |g.nodeGroup| && x in g.nodeGroup[node]
    ensures Increasing(ids)
  {
    if node < |g.nodeGroup| then SortedNats(g.nodeGroup[node]) else []
  }

  /** The variable numbered `id`, if there is one. */
  function VariableAt(variables: seq<Variable>, id: nat): (r: seq<Variable>)
    ensures id < |variables| ==> r == [variables[id]]
    ensures id >= |variables| ==> r == []
  {
    if id < |variables| then [variables[id]] else []
  }

  function VariableOf(variables: seq<Variable>): nat -> seq<Variable> {
    (id: nat) => VariableAt(variables, id)
  }

  /** What `get` pushes for group `node`: its variables, by ascending number. */
  function GroupVariables(g: RuleGraph, node: nat): seq<Variable> {
    Concat(GroupIds(g, node), VariableOf(g.variables))
  }

  function VariableEmit(g: RuleGraph): nat -> seq<Variable> {
    (node: nat) => GroupVariables(g, node)
  }

  /** The numbers below `upto` of the rules whose clause is `v`, in ascending order. */
  function RuleIds(rules: seq<Rule>, v: Variable, upto: nat): (r: seq<nat>)
    requires upto <= |rules|
    ensures forall x: nat :: x in r <==> x < upto && rules[x].clause == v
    ensures forall i :: 0 <= i < |r| ==> r[i] < upto
    ensures Increasing(r)
  {
    if upto == 0 then []
    else
      var rec := RuleIds(rules, v, upto - 1);
      if rules[upto - 1].clause == v then IncreasingSnoc(rec, upto - 1); rec + [upto - 1] else rec
  }

  function RulesOf(g: RuleGraph): nat -> seq<nat> {
    (id: nat) => if id < |g.variables| then RuleIds(g.rules, g.variables[id], |g.rules|) else []
  }

  /** What `gets_rule` pushes for group `node`: for each of its variables by ascending number, the
      numbers of the rules for that variable. */
  function GroupRules(g: RuleGraph, node: nat): seq<nat> {
    Concat(GroupIds(g, node), RulesOf(g))
  }

  function RuleEmit(g: RuleGraph): nat -> seq<nat> {
    (node: nat) => GroupRules(g, node)
  }

  lemma GroupVariablesMember(g: RuleGraph, node: nat, w: Variable)
    ensures w in GroupVariables(g, node) <==> Names(g.nodeGroup, g.variables, node, w)
  {
    var ids := GroupIds(g, node);
    ConcatMember(ids, VariableOf(g.variables), w);
    if Names(g.nodeGroup, g.variables, node, w) {
      var x :| x in g.nodeGroup[node] && x < |g.variables| && g.variables[x] == w;
      var k :| 0 <= k < |ids| && ids[k] == x;
      assert w in VariableOf(g.variables)(ids[k]);
    }
  }

  lemma GroupVariablesDistinct(g: RuleGraph, node: nat)
    requires VariablesOk(g)
    ensures Distinct(GroupVariables(g, node))
  {
    var ids, f := GroupIds(g, node), VariableOf(g.variables);
    forall k | 0 <= k < |ids| ensures Distinct(f(ids[k])) {
    }
    forall k, l, w | 0 <= k < |ids| && 0 <= l < |ids| && k != l && w in f(ids[k]) ensures w !in f(ids[l]) {
      assert Ordered(ids, k, l) && Ordered(ids, l, k);
      if w in f(ids[l]) {
        SortedVariablesDistinct(g.variables, ids[k], ids[l]);
      }
    }
    ConcatDistinct(ids, f);
  }

  lemma GroupRulesMember(g: RuleGraph, node: nat, r: nat)
    ensures r in GroupRules(g, node) <==> r < |g.rules| && Names(g.nodeGroup, g.variables, node, g.rules[r].clause)
  {
    var ids, f := GroupIds(g, node), RulesOf(g);
    ConcatMember(ids, f, r);
    if r in GroupRules(g, node) {
      var k :| 0 <= k < |ids| && r in f(ids[k]);
      RulesOfMember(g, ids[k], r);
      assert ids[k] in ids;
    }
    if r < |g.rules| && Names(g.nodeGroup, g.variables, node, g.rules[r].clause) {
      var x :| x in g.nodeGroup[node] && x < |g.variables| && g.variables[x] == g.rules[r].clause;
      assert x in ids;
      var k :| 0 <= k < |ids| && ids[k] == x;
      RulesOfMember(g, x, r);
    }
  }

  lemma RulesOfMember(g: RuleGraph, id: nat, r: nat)
    ensures r in RulesOf(g)(id) <==> id < |g.variables| && r < |g.rules| && g.rules[r].clause == g.variables[id]
  {
  }

  lemma GroupRulesDistinct(g: RuleGraph, node: nat)
    requires VariablesOk(g)
    ensures Distinct(GroupRules(g, node))
  {
    var ids, f := GroupIds(g, node), RulesOf(g);
    forall k | 0 <= k < |ids| ensures Distinct(f(ids[k])) {
      if ids[k] < |g.variables| {
        AscendingDistinct(RuleIds(g.rules, g.variables[ids[k]], |g.rules|));
      }
    }
    forall k, l, r | 0 <= k < |ids| && 0 <= l < |ids| && k != l && r in f(ids[k]) ensures r !in f(ids[l]) {
      assert Ordered(ids, k, l) && Ordered(ids, l, k);
      if r in f(ids[l]) {
        SortedVariablesDistinct(g.variables, ids[k], ids[l]);
      }
    }
    ConcatDistinct(ids, f);
  }

  /** Group `i` holds the number of `w` exactly when `indexing` sends `w` to `i`. */
  lemma NamesIndexing(g: RuleGraph, i: nat, w: Variable)
    requires Tarjan.Partition(|g.variables|, g.nodeGroup)
    requires IndexingOk(g)
    ensures Names(g.nodeGroup, g.variables, i, w) <==> w in g.indexing && i == g.indexing[w]
  {
    if Names(g.nodeGroup, g.variables, i, w) {
      var x :| x in g.nodeGroup[i] && x < |g.variables| && g.variables[x] == w;
      assert x in g.nodeGroup[g.indexing[w]];
    }
    if w in g.indexing {
      var x :| 0 <= x < |g.variables| && g.variables[x] == w;
      assert x in g.nodeGroup[g.indexing[w]];
    }
  }

  /** The group numbers of `vars`, as `gets_var` and `gets_rule` seed the flood fill. */
  function Seeds(g: RuleGraph, vars: seq<Variable>): (seeds: seq<nat>)
    requires forall u :: u in vars ==> u in g.indexing
    ensures |seeds| == |vars| && forall k :: 0 <= k < |vars| ==> seeds[k] == g.indexing[vars[k]]
  {
    seq(|vars|, k requires 0 <= k < |vars| => g.indexing[vars[k]])
  }

  /** Group `i` is reachable in the group graph from the group of one of `vars`. */
  ghost predicate ReachedGroup(g: RuleGraph, vars: seq<Variable>, i: nat) {
    exists u {:trigger u in vars} :: u in vars && u in g.indexing && Reaches(|g.nodeGroup|, EdgesOf(g.edge), g.indexing[u], i)
  }

  lemma SeedsReach(g: RuleGraph, vars: seq<Variable>, i: nat)
    requires forall u :: u in vars ==> u in g.indexing
    ensures FromSeeds(|g.nodeGroup|, g.edge, Seeds(g, vars), i) <==> ReachedGroup(g, vars, i)
  {
    var seeds, n := Seeds(g, vars), |g.nodeGroup|;
    if FromSeeds(n, g.edge, seeds, i) {
      var s :| s in seeds && Reaches(n, EdgesOf(g.edge), s, i);
      var k :| 0 <= k < |seeds| && seeds[k] == s;
      assert vars[k] in vars;
    }
    if ReachedGroup(g, vars, i) {
      var u :| u in vars && u in g.indexing && Reaches(n, EdgesOf(g.edge), g.indexing[u], i);
      var k :| 0 <= k < |vars| && vars[k] == u;
      assert seeds[k] in seeds;
    }
  }

  lemma EdgesWithinGroups(g: RuleGraph)
    requires EdgeOk(g)
    ensures EdgesWithin(g.edge, |g.nodeGroup|)
  {
    forall i, j | i in g.edge && j in g.edge[i] ensures i < |g.nodeGroup| && j < |g.nodeGroup| {
      assert GroupEdge(g.nodeGroup, g.rules, g.variables, i, j);
    }
  }

  /** Distinct emitted groups contribute disjoint variables. */
  lemma VariableEmitSeparate(g: RuleGraph, order: seq<nat>)
    requires Tarjan.Partition(|g.variables|, g.nodeGroup)
    requires IndexingOk(g) && Distinct(order)
    ensures Separate(order, VariableEmit(g))
  {
    forall k, l, w | 0 <= k < |order| && 0 <= l < |order| && k != l && w in VariableEmit(g)(order[k])
      ensures w !in VariableEmit(g)(order[l])
    {
      DistinctIndices(order, k, l);
      GroupVariablesMember(g, order[k], w);
      GroupVariablesMember(g, order[l], w);
      NamesIndexing(g, order[k], w);
      NamesIndexing(g, order[l], w);
    }
  }

  lemma RuleEmitSeparate(g: RuleGraph, order: seq<nat>)
    requires Tarjan.Partition(|g.variables|, g.nodeGroup)
    requires IndexingOk(g) && Distinct(order)
    ensures Separate(order, RuleEmit(g))
  {
    forall k, l, r | 0 <= k < |order| && 0 <= l < |order| && k != l && r in RuleEmit(g)(order[k])
      ensures r !in RuleEmit(g)(order[l])
    {
      DistinctIndices(order, k, l);
      GroupRulesMember(g, order[k], r);
      GroupRulesMember(g, order[l], r);
      if r < |g.rules| {
        NamesIndexing(g, order[k], g.rules[r].clause);
        NamesIndexing(g, order[l], g.rules[r].clause);
      }
    }
  }

  /** The flood fill's output, read back: the variables of the reached groups, each once. */
  lemma VariableOutput(g: RuleGraph, vars: seq<Variable>, order: seq<nat>)
    requires GroupsOk(g)
    requires forall u :: u in vars ==> u in g.indexing
    requires forall x: nat :: x in order <==> x < |g.nodeGroup| && FromSeeds(|g.nodeGroup|, g.edge, Seeds(g, vars), x)
    requires Distinct(order)
    ensures forall w :: w in Concat(order, VariableEmit(g)) <==> w in g.indexing && ReachedGroup(g, vars, g.indexing[w])
    ensures Distinct(Concat(order, VariableEmit(g)))
  {
    forall w ensures w in Concat(order, VariableEmit(g)) <==> w in g.indexing && ReachedGroup(g, vars, g.indexing[w]) {
      ConcatMember(order, VariableEmit(g), w);
      if w in Concat(order, VariableEmit(g)) {
        var k :| 0 <= k < |order| && w in VariableEmit(g)(order[k]);
        GroupVariablesMember(g, order[k], w);
        NamesIndexing(g, order[k], w);
        SeedsReach(g, vars, order[k]);
      }
      if w in g.indexing && ReachedGroup(g, vars, g.indexing[w]) {
        var i := g.indexing[w];
        SeedsReach(g, vars, i);
        var k :| 0 <= k < |order| && order[k] == i;
        NamesIndexing(g, i, w);
        GroupVariablesMember(g, i, w);
      }
    }
    forall k | 0 <= k < |order| ensures Distinct(VariableEmit(g)(order[k])) {
      GroupVariablesDistinct(g, order[k]);
    }
    VariableEmitSeparate(g, order);
    ConcatDistinct(order, VariableEmit(g));
  }

  /** The same for `gets_rule`: the numbers of the rules of the reached groups, each once. */
  lemma RuleOutput(g: RuleGraph, vars: seq<Variable>, order: seq<nat>)
    requires GroupsOk(g)
    requires forall u :: u in vars ==> u in g.indexing
    requires forall x: nat :: x in order <==> x < |g.nodeGroup| && FromSeeds(|g.nodeGroup|, g.edge, Seeds(g, vars), x)
    requires Distinct(order)
    ensures forall r: nat :: r in Concat(order, RuleEmit(g)) <==>
      r < |g.rules| && g.rules[r].clause in g.indexing && ReachedGroup(g, vars, g.indexing[g.rules[r].clause])
    ensures Distinct(Concat(order, RuleEmit(g)))
  {
    forall r: nat ensures r in Concat(order, RuleEmit(g)) <==>
      r < |g.rules| && g.rules[r].clause in g.indexing && ReachedGroup(g, vars, g.indexing[g.rules[r].clause])
    {
      ConcatMember(order, RuleEmit(g), r);
      if r in Concat(order, RuleEmit(g)) {
        var k :| 0 <= k < |order| && r in RuleEmit(g)(order[k]);
        GroupRulesMember(g, order[k], r);
        NamesIndexing(g, order[k], g.rules[r].clause);
        SeedsReach(g, vars, order[k]);
      }
      if r < |g.rules| && g.rules[r].clause in g.indexing && ReachedGroup(g, vars, g.indexing[g.rules[r].clause]) {
        var i := g.indexing[g.rules[r].clause];
        SeedsReach(g, vars, i);
        var k :| 0 <= k < |order| && order[k] == i;
        NamesIndexing(g, i, g.rules[r].clause);
        GroupRulesMember(g, i, r);
      }
    }
    forall k | 0 <= k < |order| ensures Distinct(RuleEmit(g)(order[k])) {
      GroupRulesDistinct(g, order[k]);
    }
    RuleEmitSeparate(g, order);
    ConcatDistinct(order, RuleEmit(g));
  }

  /** `gets_var`: the variables of every group reachable from the group of one of `vars`, each
      once. */
  method GetsVar(g: RuleGraph, vars: seq<Variable>) returns (output: seq<Variable>)
    requires GroupsOk(g)
    requires forall u :: u in vars ==> u in g.indexing
    ensures forall w :: w in output <==> w in g.indexing && ReachedGroup(g, vars, g.indexing[w])
    ensures Distinct(output)
    ensures forall u :: u in vars ==> u in output
  {
    EdgesWithinGroups(g);
    ghost var order;
    output, order := Flood(|g.nodeGroup|, g.edge, Seeds(g, vars), VariableEmit(g));
    VariableOutput(g, vars, order);
    SeedsReached(g, vars);
  }

  /** `gets_rule`: the numbers of the rules whose clause lies in a group reachable from the group of
      one of `vars`, each once. */
  method GetsRule(g: RuleGraph, vars: seq<Variable>) returns (output: seq<nat>)
    requires GroupsOk(g)
    requires forall u :: u in vars ==> u in g.indexing
    ensures forall r: nat :: r in output <==>
      r < |g.rules| && g.rules[r].clause in g.indexing && ReachedGroup(g, vars, g.indexing[g.rules[r].clause])
    ensures forall r :: 0 <= r < |g.rules| ==> g.rules[r].clause in g.indexing
    ensures Distinct(output)
  {
    EdgesWithinGroups(g);
    ghost var order;
    output, order := Flood(|g.nodeGroup|, g.edge, Seeds(g, vars), RuleEmit(g));
    RuleOutput(g, vars, order);
    forall r | 0 <= r < |g.rules| ensures g.rules[r].clause in g.indexing {
      assert g.rules[r] in g.rules;
    }
  }

  /** Every seed's own group is reached. */
  lemma SeedsReached(g: RuleGraph, vars: seq<Variable>)
    requires IndexingOk(g)
    requires forall u :: u in vars ==> u in g.indexing
    ensures forall u :: u in vars ==> ReachedGroup(g, vars, g.indexing[u])
  {
    forall u | u in vars ensures ReachedGroup(g, vars, g.indexing[u]) {
      ReachesRefl(|g.nodeGroup|, EdgesOf(g.edge), g.indexing[u]);
    }
  }

  /** A walk through variables, read group by group, is a walk in the group graph. */
  lemma {:induction false} PathToGroups(g: RuleGraph, p: seq<nat>)
    requires IndexingOk(g) && EdgeOk(g)
    requires IsPath(|g.variables|, Conn(g.rules, g.variables), p)
    ensures Reaches(|g.nodeGroup|, EdgesOf(g.edge), g.indexing[g.variables[p[0]]], g.indexing[g.variables[p[|p| - 1]]])
    decreases |p|
  {
    var n, conn := |g.variables|, Conn(g.rules, g.variables);
    var last := p[|p| - 1];
    if |p| == 1 {
      ReachesRefl(|g.nodeGroup|, EdgesOf(g.edge), g.indexing[g.variables[last]]);
    } else {
      var a := p[|p| - 2];
      PathInit(n, conn, p);
      PathToGroups(g, p[..|p| - 1]);
      var ga, gb := g.indexing[g.variables[a]], g.indexing[g.variables[last]];
      if ga != gb {
        assert a in g.nodeGroup[ga] && last in g.nodeGroup[gb];
        assert Linked(g.nodeGroup[ga], g.nodeGroup[gb], g.rules, g.variables);
        assert GroupEdge(g.nodeGroup, g.rules, g.variables, ga, gb);
        ReachesStep(|g.nodeGroup|, EdgesOf(g.edge), g.indexing[g.variables[p[0]]], ga, gb);
      }
    }
  }

  /** Every group is strongly connected and holds only numbered variables (part of the decomposition
      the SCC search returns). */
  ghost predicate GroupsConnected(g: RuleGraph) {
    && (forall i, x {:trigger x in g.nodeGroup[i]} :: 0 <= i < |g.nodeGroup| && x in g.nodeGroup[i] ==> x < |g.variables|)
    && (forall i, x, y {:trigger Within(g, i, x, y)} :: Within(g, i, x, y))
  }

  /** Two variables of group `i` reach each other. */
  ghost predicate Within(g: RuleGraph, i: int, x: nat, y: nat) {
    0 <= i < |g.nodeGroup| && x in g.nodeGroup[i] && y in g.nodeGroup[i] ==> Reaches(|g.variables|, Conn(g.rules, g.variables), x, y)
  }

  /** A walk in the group graph connects every variable of its first group to every variable of its
      last. */
  lemma {:induction false} GroupsToVariables(g: RuleGraph, gp: seq<nat>, x: nat, y: nat)
    requires GroupsConnected(g) && EdgeOk(g)
    requires IsPath(|g.nodeGroup|, EdgesOf(g.edge), gp)
    requires x in g.nodeGroup[gp[0]] && y in g.nodeGroup[gp[|gp| - 1]]
    ensures Reaches(|g.variables|, Conn(g.rules, g.variables), x, y)
    decreases |gp|
  {
    var n, conn := |g.variables|, Conn(g.rules, g.variables);
    var j := gp[|gp| - 1];
    if |gp| == 1 {
      assert Within(g, j, x, y);
    } else {
      var k := gp[|gp| - 2];
      PathInit(|g.nodeGroup|, EdgesOf(g.edge), gp);
      assert GroupEdge(g.nodeGroup, g.rules, g.variables, k, j);
      var a, b :| a in g.nodeGroup[k] && b in g.nodeGroup[j] && IsConnect(g.rules, g.variables, a, b);
      GroupsToVariables(g, gp[..|gp| - 1], x, a);
      assert a < n && b < n && y < n;
      ReachesStep(n, conn, x, a, b);
      assert Within(g, j, b, y);
      ReachesTrans(n, conn, x, b, y);
    }
  }

  /** Group reachability is variable reachability: the group of `x` reaches the group of `y` exactly
      when `x` reaches `y` through rules whose output starts with a variable. */
  lemma GroupReachIsLeftReach(g: RuleGraph, x: nat, y: nat)
    requires GraphOk(g)
    requires x < |g.variables| && y < |g.variables|
    ensures Reaches(|g.nodeGroup|, EdgesOf(g.edge), g.indexing[g.variables[x]], g.indexing[g.variables[y]])
        <==> Reaches(|g.variables|, Conn(g.rules, g.variables), x, y)
  {
    var n, conn := |g.variables|, Conn(g.rules, g.variables);
    var gx, gy := g.indexing[g.variables[x]], g.indexing[g.variables[y]];
    if Reaches(n, conn, x, y) {
      var p :| IsPath(n, conn, p) && p[0] == x && p[|p| - 1] == y;
      PathToGroups(g, p);
    }
    if Reaches(|g.nodeGroup|, EdgesOf(g.edge), gx, gy) {
      forall i, a, b ensures Within(g, i, a, b) {
      }
      var gp :| IsPath(|g.nodeGroup|, EdgesOf(g.edge), gp) && gp[0] == gx && gp[|gp| - 1] == gy;
      GroupsToVariables(g, gp, x, y);
    }
  }

  lemma ReachedSingle(g: RuleGraph, v: Variable, i: nat)
    requires v in g.indexing
    ensures ReachedGroup(g, [v], i) <==> Reaches(|g.nodeGroup|, EdgesOf(g.edge), g.indexing[v], i)
  {
    if Reaches(|g.nodeGroup|, EdgesOf(g.edge), g.indexing[v], i) {
      assert v in [v];
    }
  }

  /** `get`: the variables of every group reachable from the group of `v`, each once; these are
      exactly the variables that `v` reaches through rules whose output starts with a variable. */
  method Get(g: RuleGraph, v: Variable) returns (output: seq<Variable>)
    requires GroupsOk(g) && v in g.indexing
    ensures forall w :: w in output <==>
      w in g.indexing && Reaches(|g.nodeGroup|, EdgesOf(g.edge), g.indexing[v], g.indexing[w])
    ensures GraphOk(g) ==> forall x, y :: 0 <= x < |g.variables| && 0 <= y < |g.variables| && g.variables[x] == v ==>
      (g.variables[y] in output <==> Reaches(|g.variables|, Conn(g.rules, g.variables), x, y))
    ensures forall w :: w in output ==> w in g.variables
    ensures v in output
    ensures Distinct(output)
  {
    EdgesWithinGroups(g);
    ghost var order;
    output, order := Flood(|g.nodeGroup|, g.edge, Seeds(g, [v]), VariableEmit(g));
    VariableOutput(g, [v], order);
    SeedsReached(g, [v]);
    GetOutput(g, v, output);
  }

  lemma GetOutput(g: RuleGraph, v: Variable, output: seq<Variable>)
    requires GroupsOk(g) && v in g.indexing
    requires forall w :: w in output <==> w in g.indexing && ReachedGroup(g, [v], g.indexing[w])
    ensures forall w :: w in output <==>
      w in g.indexing && Reaches(|g.nodeGroup|, EdgesOf(g.edge), g.indexing[v], g.indexing[w])
    ensures GraphOk(g) ==> forall x, y :: 0 <= x < |g.variables| && 0 <= y < |g.variables| && g.variables[x] == v ==>
      (g.variables[y] in output <==> Reaches(|g.variables|, Conn(g.rules, g.variables), x, y))
    ensures forall w :: w in output ==> w in g.variables
  {
    forall w | w in g.indexing
      ensures ReachedGroup(g, [v], g.indexing[w]) <==> Reaches(|g.nodeGroup|, EdgesOf(g.edge), g.indexing[v], g.indexing[w])
    {
      ReachedSingle(g, v, g.indexing[w]);
    }
    if GraphOk(g) {
      forall x, y | 0 <= x < |g.variables| && 0 <= y < |g.variables| && g.variables[x] == v
        ensures g.variables[y] in output <==> Reaches(|g.variables|, Conn(g.rules, g.variables), x, y)
      {
        GroupReachIsLeftReach(g, x, y);
      }
    }
  }

  /** Every group edge goes to a group completed earlier by the SCC search. */
  ghost predicate EdgeDown(edge: map<nat, set<nat>>) {
    forall i, j {:trigger j in edge[i]} :: i in edge && j in edge[i] ==> j < i
  }

  lemma EdgesGoDown(g: RuleGraph)
    requires Tarjan.SccDecomposition(|g.variables|, Conn(g.rules, g.variables), g.nodeGroup)
    requires EdgeOk(g)
    ensures EdgeDown(g.edge)
  {
    forall i, j | i in g.edge && j in g.edge[i] ensures j < i {
      assert GroupEdge(g.nodeGroup, g.rules, g.variables, i, j);
      var a, b :| a in g.nodeGroup[i] && b in g.nodeGroup[j] && IsConnect(g.rules, g.variables, a, b);
      assert Conn(g.rules, g.variables)(a, b);
    }
  }

  /** Each emitted group comes after all of its successors. */
  ghost predicate Postordered(edge: map<nat, set<nat>>, output: seq<nat>) {
    forall k, y {:trigger y in edge[output[k]]} :: 0 <= k < |output| && output[k] in edge && y in edge[output[k]] ==> y in output[..k]
  }

  /** What the depth-first search keeps: the emitted groups are visited, distinct and post-ordered,
      and every visited group is below `n`. */
  ghost predicate TopoInv(n: nat, edge: map<nat, set<nat>>, visit: set<nat>, output: seq<nat>) {
    && (forall x :: x in output ==> x in visit)
    && (forall x :: x in visit ==> x < n)
    && Distinct(output)
    && Postordered(edge, output)
  }

  lemma PostorderedSnoc(edge: map<nat, set<nat>>, output: seq<nat>, x: nat)
    requires Postordered(edge, output)
    requires x in edge ==> forall y :: y in edge[x] ==> y in output
    ensures Postordered(edge, output + [x])
  {
    var t := output + [x];
    forall k, y | 0 <= k < |t| && t[k] in edge && y in edge[t[k]] ensures y in t[..k] {
      if k < |output| {
        assert t[k] == output[k] && t[..k] == output[..k];
      } else {
        assert t[..k] == output;
      }
    }
  }

  /** Group `x` is open: visited but not yet emitted. */
  ghost predicate Open(visit: set<nat>, output: seq<nat>, x: nat) {
    x in visit && x !in output
  }

  /** The open groups all lie above `node`. */
  ghost predicate OpenAbove(visit: set<nat>, output: seq<nat>, node: nat) {
    forall x: nat {:trigger Open(visit, output, x)} :: Open(visit, output, x) ==> x > node
  }

  /** The groups open in `(visit', output')` are exactly those open in `(visit, output)`. */
  ghost predicate OpenSince(visit': set<nat>, output': seq<nat>, visit: set<nat>, output: seq<nat>) {
    forall x: nat {:trigger Open(visit', output', x)} {:trigger Open(visit, output, x)} :: Open(visit', output', x) <==> Open(visit, output, x)
  }

  lemma OpenSinceTrans(v2: set<nat>, o2: seq<nat>, v1: set<nat>, o1: seq<nat>, v0: set<nat>, o0: seq<nat>)
    requires OpenSince(v2, o2, v1, o1) && OpenSince(v1, o1, v0, o0)
    ensures OpenSince(v2, o2, v0, o0)
  {
  }

  lemma OpenBelow(visit': set<nat>, output': seq<nat>, visit: set<nat>, output: seq<nat>, node: nat, next: nat)
    requires OpenSince(visit', output', visit + {node}, output) && OpenAbove(visit, output, node)
    requires next < node
    ensures OpenAbove(visit', output', next)
  {
    forall x: nat | Open(visit', output', x) ensures x > next {
      assert Open(visit + {node}, output, x);
      if x != node { assert Open(visit, output, x); }
    }
  }

  lemma SubsetCard(a: set<nat>, b: set<nat>)
    requires a <= b
    ensures |a| <= |b|
  {
    assert b == a + (b - a);
  }

  /** `topo_recur`: a depth-first visit of group `node` that emits each group after its successors,
      visited in ascending order. The groups visited but not yet emitted (the open calls) all lie
      above `node`, and the visit leaves exactly those open. */
  method TopoRecur(g: RuleGraph, visit: set<nat>, output: seq<nat>, node: nat)
    returns (visit': set<nat>, output': seq<nat>)
    requires EdgesWithin(g.edge, |g.nodeGroup|) && EdgeDown(g.edge)
    requires node < |g.nodeGroup|
    requires TopoInv(|g.nodeGroup|, g.edge, visit, output)
    requires OpenAbove(visit, output, node)
    ensures TopoInv(|g.nodeGroup|, g.edge, visit', output')
    ensures visit <= visit' && node in output'
    ensures OpenSince(visit', output', visit, output)
    decreases |g.nodeGroup| - |visit|
  {
    if node in visit {
      assert !Open(visit, output, node);
      return visit, output;
    }
    visit', output' := visit + {node}, output;
    var nexts := Successors(g.edge, node);
    for k := 0 to |nexts|
      invariant TopoInv(|g.nodeGroup|, g.edge, visit', output')
      invariant visit + {node} <= visit' && |visit| < |visit'|
      invariant OpenSince(visit', output', visit + {node}, output)
      invariant forall l :: 0 <= l < k ==> nexts[l] in visit'
    {
      var next := nexts[k];
      assert next in nexts;
      assert node in g.edge && next in g.edge[node];
      TopoDescend(|g.nodeGroup|, g.edge, visit, output, node, visit', output', next);
      ghost var (v1, o1) := (visit', output');
      visit', output' := TopoRecur(g, visit', output', next);
      SubsetCard(v1, visit');
      OpenSinceTrans(visit', output', v1, o1, visit + {node}, output);
    }
    TopoEmit(|g.nodeGroup|, g.edge, visit, output, visit', output', node, nexts);
    output' := output' + [node];
  }

  /** The successors of group `node`, in the ascending order a `BTreeSet` iterates them; none when
      `node` has no entry. */
  method Successors(edge: map<nat, set<nat>>, node: nat) returns (nexts: seq<nat>)
    ensures Increasing(nexts)
    ensures forall y :: y in nexts <==> node in edge && y in edge[node]
  {
    nexts := [];
    if node in edge {
      nexts := AscendingIds(edge[node]);
    }
  }

  /** Before descending into successor `next` of `node`: the open groups lie above `next`, and
      the visited groups are no more than there are groups. */
  lemma TopoDescend(n: nat, edge: map<nat, set<nat>>, visit: set<nat>, output: seq<nat>, node: nat, visit': set<nat>, output': seq<nat>, next: nat)
    requires TopoInv(n, edge, visit', output')
    requires OpenSince(visit', output', visit + {node}, output) && OpenAbove(visit, output, node)
    requires next < node
    ensures OpenAbove(visit', output', next) && |visit'| <= n
  {
    OpenBelow(visit', output', visit, output, node, next);
    Tarjan.BoundedCard(visit', n);
  }

  /** Emitting `node` once all its successors are visited: they are then all emitted already,
      because the only open groups lie above `node`. */
  lemma TopoEmit(n: nat, edge: map<nat, set<nat>>, visit: set<nat>, output: seq<nat>, visit': set<nat>, output': seq<nat>, node: nat, nexts: seq<nat>)
    requires EdgeDown(edge) && node !in visit && visit + {node} <= visit'
    requires forall x :: x in output ==> x in visit
    requires TopoInv(n, edge, visit', output')
    requires OpenAbove(visit, output, node) && OpenSince(visit', output', visit + {node}, output)
    requires forall y :: y in nexts <==> node in edge && y in edge[node]
    requires forall l :: 0 <= l < |nexts| ==> nexts[l] in visit'
    ensures TopoInv(n, edge, visit', output' + [node])
    ensures OpenSince(visit', output' + [node], visit, output)
  {
    forall y | node in edge && y in edge[node] ensures y in output' {
      var l :| 0 <= l < |nexts| && nexts[l] == y;
      assert y < node;
      assert !Open(visit, output, y) && y != node;
      assert !Open(visit', output', y);
    }
    assert Open(visit + {node}, output, node);
    PostorderedSnoc(edge, output', node);
    DistinctSnoc(output', node);
    var t := output' + [node];
    forall x: nat ensures Open(visit', t, x) <==> Open(visit, output, x) {
      if x == node {
        assert x in t;
      } else {
        assert Open(visit', t, x) <==> Open(visit', output', x);
        assert Open(visit + {node}, output, x) <==> Open(visit, output, x);
      }
    }
  }



  /** The variables whose numbers make up group `id`. */
  function GroupSet(g: RuleGraph, id: nat): set<Variable>
    requires id < |g.nodeGroup|
  {
    set x | x in g.nodeGroup[id] && x < |g.variables| :: g.variables[x]
  }

  /** If a rule of variable `x` starts with variable `y`, the set holding `y` comes no later than the
      set holding `x`. */
  ghost predicate Placed(g: RuleGraph, output: seq<set<Variable>>, k: int, l: int, x: nat, y: nat) {
    0 <= k < |output| && 0 <= l < |output| && x < |g.variables| && y < |g.variables| &&
    g.variables[x] in output[k] && g.variables[y] in output[l] && IsConnect(g.rules, g.variables, x, y)
    ==> l <= k
  }

  /** A variable found in two sets is found in one set. */
  ghost predicate Once(output: seq<set<Variable>>, k: int, l: int, v: Variable) {
    0 <= k < |output| && 0 <= l < |output| && v in output[k] && v in output[l] ==> k == l
  }

  /** `output` splits the variables into sets, each placed after the sets it depends on. */
  ghost predicate Layered(g: RuleGraph, output: seq<set<Variable>>) {
    && (forall v :: v in g.variables <==> exists k :: 0 <= k < |output| && v in output[k])
    && (forall k, l, v {:trigger Once(output, k, l, v)} :: Once(output, k, l, v))
    && (forall k, l, x: nat, y: nat {:trigger Placed(g, output, k, l, x, y)} :: Placed(g, output, k, l, x, y))
  }

  /** `order` lists each group number below `n` exactly once. */
  ghost predicate Permutes(order: seq<nat>, n: nat) {
    && Distinct(order)
    && (forall k :: 0 <= k < |order| ==> order[k] < n)
    && (forall i: nat :: i < n ==> i in order)
  }

  /** `output[k]` names the variables of group `order[k]`. */
  ghost predicate NamesGroups(g: RuleGraph, order: seq<nat>, output: seq<set<Variable>>) {
    && (forall k :: 0 <= k < |order| ==> order[k] < |g.nodeGroup|)
    && |output| == |order|
    && (forall k :: 0 <= k < |order| ==> output[k] == GroupSet(g, order[k]))
  }

  /** `toposort`: visits every group in turn, then names each emitted group by its variables. */
  method Toposort(g: RuleGraph) returns (output: seq<set<Variable>>, ghost order: seq<nat>)
    requires GroupsOk(g) && EdgeDown(g.edge)
    ensures Permutes(order, |g.nodeGroup|) && Postordered(g.edge, order)
    ensures NamesGroups(g, order, output)
    ensures Layered(g, output)
  {
    EdgesWithinGroups(g);
    var visit: set<nat> := {};
    var ids: seq<nat> := [];
    for id := 0 to |g.nodeGroup|
      invariant TopoInv(|g.nodeGroup|, g.edge, visit, ids)
      invariant forall x: nat {:trigger Open(visit, ids, x)} :: !Open(visit, ids, x)
      invariant forall i :: 0 <= i < id ==> i in visit
    {
      ghost var (v0, o0) := (visit, ids);
      visit, ids := TopoRecur(g, visit, ids, id);
      forall x: nat ensures !Open(visit, ids, x) {
        assert Open(visit, ids, x) <==> Open(v0, o0, x);
      }
    }
    forall i: nat | i < |g.nodeGroup| ensures i in ids {
      assert !Open(visit, ids, i);
    }
    forall k | 0 <= k < |ids| ensures ids[k] < |g.nodeGroup| {
      assert ids[k] in visit;
    }
    order := ids;
    output := seq(|ids|, k requires 0 <= k < |ids| => GroupSet(g, ids[k]));
    LayeredCover(g, order, output);
    LayeredOnce(g, order, output);
    LayeredPlaced(g, order, output);
  }

  /** Every variable, and nothing else, is named by some set. */
  lemma LayeredCover(g: RuleGraph, order: seq<nat>, output: seq<set<Variable>>)
    requires IndexingOk(g) && Permutes(order, |g.nodeGroup|) && NamesGroups(g, order, output)
    ensures forall v :: v in g.variables <==> exists k :: 0 <= k < |output| && v in output[k]
  {
    forall v ensures v in g.variables <==> exists k :: 0 <= k < |output| && v in output[k] {
      if v in g.variables {
        var x :| 0 <= x < |g.variables| && g.variables[x] == v;
        var i := g.indexing[v];
        assert i in order;
        var k :| 0 <= k < |order| && order[k] == i;
        assert v in output[k];
      }
      if exists k :: 0 <= k < |output| && v in output[k] {
        var k :| 0 <= k < |output| && v in output[k];
        var x :| x in g.nodeGroup[order[k]] && x < |g.variables| && g.variables[x] == v;
      }
    }
  }

  /** No variable is named by two sets. */
  lemma LayeredOnce(g: RuleGraph, order: seq<nat>, output: seq<set<Variable>>)
    requires VariablesOk(g) && Tarjan.Partition(|g.variables|, g.nodeGroup)
    requires Permutes(order, |g.nodeGroup|) && NamesGroups(g, order, output)
    ensures forall k, l, v {:trigger Once(output, k, l, v)} :: Once(output, k, l, v)
  {
    forall k, l, v ensures Once(output, k, l, v) {
      if 0 <= k < |output| && 0 <= l < |output| && v in output[k] && v in output[l] {
        var x :| x in g.nodeGroup[order[k]] && x < |g.variables| && g.variables[x] == v;
        PlacedInGroup(g, order, output, l, x);
        if k != l { DistinctIndices(order, k, l); }
      }
    }
  }

  /** Sets are placed after the sets their rules start with. */
  lemma LayeredPlaced(g: RuleGraph, order: seq<nat>, output: seq<set<Variable>>)
    requires VariablesOk(g) && EdgeOk(g)
    requires Permutes(order, |g.nodeGroup|) && Postordered(g.edge, order) && NamesGroups(g, order, output)
    ensures forall k, l, x: nat, y: nat {:trigger Placed(g, output, k, l, x, y)} :: Placed(g, output, k, l, x, y)
  {
    forall k, l, x: nat, y: nat ensures Placed(g, output, k, l, x, y) {
      if 0 <= k < |output| && 0 <= l < |output| && x < |g.variables| && y < |g.variables| &&
         g.variables[x] in output[k] && g.variables[y] in output[l] && IsConnect(g.rules, g.variables, x, y)
      {
        PlacedInGroup(g, order, output, k, x);
        PlacedInGroup(g, order, output, l, y);
        if order[k] == order[l] {
          if k != l { DistinctIndices(order, k, l); }
        } else {
          assert GroupEdge(g.nodeGroup, g.rules, g.variables, order[k], order[l]);
          assert order[l] in g.edge[order[k]];
          var l' :| 0 <= l' < k && order[..k][l'] == order[l];
          if l' != l { DistinctIndices(order, l', l); }
        }
      }
    }
  }

  /** A variable named in the set of group `order[k]` has its number in that group. */
  lemma PlacedInGroup(g: RuleGraph, order: seq<nat>, output: seq<set<Variable>>, k: nat, x: nat)
    requires VariablesOk(g) && NamesGroups(g, order, output)
    requires k < |order| && x < |g.variables| && g.variables[x] in output[k]
    ensures x in g.nodeGroup[order[k]]
  {
    var x' :| x' in g.nodeGroup[order[k]] && x' < |g.variables| && g.variables[x'] == g.variables[x];
    SortedVariablesDistinct(g.variables, x, x');
  }

  // ---------------------------------------------------------------------------------------------
  // Reachability through leading variables, stated on the rules alone

  /** `v` has at least one rule. */
  ghost predicate IsClause(rules: seq<Rule>, v: Variable) {
    exists r :: r in rules && r.clause == v
  }

  /** Every variable standing after the first symbol of an output has a rule of its own, so
      `indexing` knows it: a dot that has been shifted over a symbol can stop only there. */
  ghost predicate ShiftedClosed(rules: seq<Rule>) {
    forall k, j :: 0 <= k < |rules| && 1 <= j < |rules[k].output| && rules[k].output[j].Var? ==>
      IsClause(rules, rules[k].output[j].v)
  }

  /** A variable at the start of rule 0, where the start item's dot stands, has a rule. */
  ghost predicate StartClosed(rules: seq<Rule>) {
    0 < |rules| && 0 < |rules[0].output| && rules[0].output[0].Var? ==> IsClause(rules, rules[0].output[0].v)
  }

  /** The variables the item-set generations can ask `indexing` for have rules: those after the
      first symbol of an output, and the first symbol of rule 0.  The facts are stated under a
      trigger on `ShiftedClosed`, so that the solver opens them only where they are used. */
  ghost predicate LookupsClosed(rules: seq<Rule>) {
    forall q {:trigger ShiftedClosed(q)} :: q == rules ==> ShiftedClosed(q) && StartClosed(q)
  }

  /** `g` is the rule graph of the closed grammar `rules`.  The facts are stated under a trigger on
      `GraphOk`, so that the solver opens them only where the graph itself is used. */
  ghost predicate GraphFor(g: RuleGraph, rules: seq<Rule>) {
    forall h {:trigger GraphOk(h)} :: h == g ==> GraphOk(h) && h.rules == rules && LookupsClosed(rules)
  }

  /** From position `i` of `p` to the next: some rule of `p[i]` starts with `p[i + 1]`. */
  ghost predicate ChainStep(rules: seq<Rule>, p: seq<Variable>, i: nat) {
    i + 1 < |p| && AnyLeads(rules, p[i], p[i + 1])
  }

  /** A non-empty walk through clauses, each step a rule whose output starts with the next one. */
  ghost predicate IsChain(rules: seq<Rule>, p: seq<Variable>) {
    && |p| > 0
    && (forall i :: 0 <= i < |p| ==> IsClause(rules, p[i]))
    && (forall i: nat :: i < |p| - 1 ==> ChainStep(rules, p, i))
  }

  /** `b` is derived at the front of `a` in zero or more steps, through clauses only. */
  ghost predicate LeftReaches(rules: seq<Rule>, a: Variable, b: Variable) {
    exists p :: IsChain(rules, p) && p[0] == a && p[|p| - 1] == b
  }

  lemma LeftReachesRefl(rules: seq<Rule>, a: Variable)
    requires IsClause(rules, a)
    ensures LeftReaches(rules, a, a)
  {
    assert IsChain(rules, [a]);
  }

  /** A reached clause whose rule `k` starts with a clause `b` reaches `b`. */
  lemma LeftReachesStep(rules: seq<Rule>, a: Variable, k: nat, b: Variable)
    requires k < |rules| && LeftReaches(rules, a, rules[k].clause)
    requires |rules[k].output| > 0 && rules[k].output[0] == Var(b) && IsClause(rules, b)
    ensures LeftReaches(rules, a, b)
  {
    var p :| IsChain(rules, p) && p[0] == a && p[|p| - 1] == rules[k].clause;
    var q := p + [b];
    assert Leads(rules[k], rules[k].clause, b);
    forall i: nat | i < |q| - 1 ensures ChainStep(rules, q, i) {
      if i < |p| - 1 {
        assert ChainStep(rules, p, i);
      }
    }
    assert IsChain(rules, q);
  }

  /** The position of `v` in `vs`. */
  function IndexIn(vs: seq<Variable>, v: Variable): (i: nat)
    requires v in vs
    ensures i < |vs| && vs[i] == v
  {
    if vs[0] == v then 0 else 1 + IndexIn(vs[1..], v)
  }

  /** Paths of variable numbers under `Conn` are chains of the variables they number. */
  lemma IndexChain(g: RuleGraph, x: nat, y: nat)
    requires VariablesOk(g)
    requires x < |g.variables| && y < |g.variables|
    ensures Reaches(|g.variables|, Conn(g.rules, g.variables), x, y) <==>
      LeftReaches(g.rules, g.variables[x], g.variables[y])
  {
    if Reaches(|g.variables|, Conn(g.rules, g.variables), x, y) {
      PathToChain(g, x, y);
    }
    if LeftReaches(g.rules, g.variables[x], g.variables[y]) {
      ChainToPath(g, x, y);
    }
  }

  lemma PathToChain(g: RuleGraph, x: nat, y: nat)
    requires VariablesOk(g)
    requires Reaches(|g.variables|, Conn(g.rules, g.variables), x, y)
    ensures x < |g.variables| && y < |g.variables|
    ensures LeftReaches(g.rules, g.variables[x], g.variables[y])
  {
    var vs, n, conn := g.variables, |g.variables|, Conn(g.rules, g.variables);
    var p :| IsPath(n, conn, p) && p[0] == x && p[|p| - 1] == y;
    var q := seq(|p|, i requires 0 <= i < |p| => vs[p[i]]);
    forall i: nat | i < |q| - 1 ensures ChainStep(g.rules, q, i) {
      assert StepAt(conn, p, i);
    }
    forall i | 0 <= i < |q| ensures IsClause(g.rules, q[i]) {
      assert q[i] in vs;
    }
    assert IsChain(g.rules, q);
  }

  lemma ChainToPath(g: RuleGraph, x: nat, y: nat)
    requires VariablesOk(g)
    requires x < |g.variables| && y < |g.variables|
    requires LeftReaches(g.rules, g.variables[x], g.variables[y])
    ensures Reaches(|g.variables|, Conn(g.rules, g.variables), x, y)
  {
    var vs, n, conn := g.variables, |g.variables|, Conn(g.rules, g.variables);
    var q :| IsChain(g.rules, q) && q[0] == vs[x] && q[|q| - 1] == vs[y];
    forall i | 0 <= i < |q| ensures q[i] in vs {
      assert IsClause(g.rules, q[i]);
    }
    var p := ChainNumbered(g.rules, vs, q);
    var a, b := p[0], p[|p| - 1];
    assert vs[a] == vs[x] && vs[b] == vs[y];
    SortedVariablesDistinct(vs, a, x);
    SortedVariablesDistinct(vs, b, y);
    assert IsPath(n, conn, p) && p[0] == x && p[|p| - 1] == y;
  }

  /** A chain through variables of `vs`, numbered by their positions in `vs`, is a path. */
  lemma ChainNumbered(rules: seq<Rule>, vs: seq<Variable>, q: seq<Variable>) returns (p: seq<nat>)
    requires IsChain(rules, q)
    requires forall k :: 0 <= k < |q| ==> q[k] in vs
    ensures |p| == |q| && IsPath(|vs|, Conn(rules, vs), p)
    ensures forall k :: 0 <= k < |p| ==> p[k] < |vs| && vs[p[k]] == q[k]
  {
    p := seq(|q|, i requires 0 <= i < |q| => IndexIn(vs, q[i]));
    forall k | 0 <= k < |p| ensures p[k] < |vs| && vs[p[k]] == q[k] {
      assert p[k] == IndexIn(vs, q[k]);
    }
    forall i: nat | i < |p| - 1 ensures StepAt(Conn(rules, vs), p, i) {
      assert ChainStep(rules, q, i);
      ChainIndexStep(rules, vs, q, p, i);
    }
  }

  /** One step of a chain, read through the numbering `p` of its variables. */
  lemma ChainIndexStep(rules: seq<Rule>, vs: seq<Variable>, q: seq<Variable>, p: seq<nat>, i: nat)
    requires |p| == |q| && i + 1 < |q| && ChainStep(rules, q, i)
    requires forall k :: 0 <= k < |p| ==> p[k] < |vs| && vs[p[k]] == q[k]
    ensures StepAt(Conn(rules, vs), p, i)
  {
    assert vs[p[i]] == q[i] && vs[p[i + 1]] == q[i + 1];
    assert IsConnect(rules, vs, p[i], p[i + 1]);
  }

  /** The group of `u` reaches the group of `v` exactly when `u` left-reaches `v`: what the rule
      graph computes does not depend on how its groups happen to be numbered. */
  lemma GroupReachIsChain(g: RuleGraph, u: Variable, v: Variable)
    requires GraphOk(g)
    requires u in g.indexing && v in g.indexing
    ensures Reaches(|g.nodeGroup|, EdgesOf(g.edge), g.indexing[u], g.indexing[v]) <==> LeftReaches(g.rules, u, v)
  {
    var x, y := IndexIn(g.variables, u), IndexIn(g.variables, v);
    GroupReachIsLeftReach(g, x, y);
    IndexChain(g, x, y);
  }

  /** The groups reached from `vars` are the groups of the clauses some variable of `vars` left-reaches. */
  lemma ReachedGroupIsLeftReached(g: RuleGraph, vars: seq<Variable>, a: Variable)
    requires GraphOk(g)
    requires forall u :: u in vars ==> u in g.indexing
    requires a in g.indexing
    ensures ReachedGroup(g, vars, g.indexing[a]) <==> exists u :: u in vars && LeftReaches(g.rules, u, a)
  {
    if ReachedGroup(g, vars, g.indexing[a]) {
      var u :| u in vars && u in g.indexing && Reaches(|g.nodeGroup|, EdgesOf(g.edge), g.indexing[u], g.indexing[a]);
      GroupReachIsChain(g, u, a);
    }
    if exists u :: u in vars && LeftReaches(g.rules, u, a) {
      var u :| u in vars && LeftReaches(g.rules, u, a);
      GroupReachIsChain(g, u, a);
    }
  }

  /** What `gets_rule` returns, stated on the rules alone: the rules whose clause a variable of `vars`
      left-reaches. */
  lemma GetsRuleIsLeftReached(g: RuleGraph, vars: seq<Variable>, output: seq<nat>)
    requires GraphOk(g)
    requires forall u :: u in vars ==> u in g.indexing
    requires forall r: nat :: r in output <==>
      r < |g.rules| && g.rules[r].clause in g.indexing && ReachedGroup(g, vars, g.indexing[g.rules[r].clause])
    ensures forall r: nat :: r in output <==>
      r < |g.rules| && exists u :: u in vars && LeftReaches(g.rules, u, g.rules[r].clause)
  {
    forall r: nat | r < |g.rules|
      ensures r in output <==> exists u :: u in vars && LeftReaches(g.rules, u, g.rules[r].clause)
    {
      assert g.rules[r] in g.rules;
      ReachedGroupIsLeftReached(g, vars, g.rules[r].clause);
    }
  }
}
