/** The older rule dependency graph (src/ruledepend.rs).  The graph type, the group edges and the
    `gets_var`/`gets_rule` flood fills are those of src/rule_depend.rs (`RuleDepend`).  What differs
    is the connection test, which reads the first output symbol of every rule for the clause it
    scans, the grouping, where every tree of a depth-first search becomes one group whatever the
    lowlinks say, and `get`, which unwraps the successor entry of every group it reaches. */
module OldRuleDepend {
  import opened Wrappers
  import opened Syntax
  import opened Graphs
  import Scc = Tarjan
  import RD = RuleDepend

  // ---------------------------------------------------------------------------------------------
  // The connection test

  /** Scanning `rules` for a rule for `a` that starts with `b` never reads the first symbol of an
      empty output: every rule for `a` met before the first match has a non-empty output. */
  predicate Scannable(rules: seq<Rule>, a: Variable, b: Variable) {
    rules == [] ||
    if rules[0].clause != a then Scannable(rules[1..], a, b)
    else |rules[0].output| > 0 && (rules[0].output[0] == Var(b) || Scannable(rules[1..], a, b))
  }

  /** The filter-and-peek of `is_connect`: the scan stops at the first rule for `a` that starts
      with `b`. */
  function Connects(rules: seq<Rule>, a: Variable, b: Variable): (r: bool)
    requires Scannable(rules, a, b)
    ensures r <==> RD.AnyLeads(rules, a, b)
  {
    if rules == [] then false
    else if rules[0].clause != a then Connects(rules[1..], a, b)
    else if rules[0].output[0] == Var(b) then true
    else Connects(rules[1..], a, b)
  }

  /** `is_connect`: where the scan is safe, the same relation as the newer test. */
  function IsConnect(edges: seq<Rule>, nodes: seq<Variable>, u: nat, v: nat): (b: bool)
    requires u < |nodes| && v < |nodes| && Scannable(edges, nodes[u], nodes[v])
    ensures b == RD.IsConnect(edges, nodes, u, v)
  {
    Connects(edges, nodes[u], nodes[v])
  }

  /** When every rule for `a` has a non-empty output, every scan for `a` is safe. */
  lemma {:induction false} NonEmptyScannable(rules: seq<Rule>, a: Variable, b: Variable)
    requires forall k :: 0 <= k < |rules| && rules[k].clause == a ==> |rules[k].output| > 0
    ensures Scannable(rules, a, b)
    decreases |rules|
  {
    if rules != [] {
      assert forall k :: 0 <= k < |rules| - 1 ==> rules[1..][k] == rules[k + 1];
      NonEmptyScannable(rules[1..], a, b);
    }
  }

  /** A rule for `a` with empty output ahead of every rule for `a` that starts with `b` makes the
      scan read past the end of that output. */
  lemma EmptyFirstNotScannable(r: Rule, rest: seq<Rule>, b: Variable)
    requires r.output == []
    ensures !Scannable([r] + rest, r.clause, b)
  {
  }

  // ---------------------------------------------------------------------------------------------
  // The grouping

  /** The nodes first reached from `root` once the groups `earlier` have been taken. */
  ghost function Discovered(len: nat, conn: (nat, nat) -> bool, earlier: seq<set<nat>>, root: nat): set<nat> {
    set y | 0 <= y < len && Reaches(len, conn, root, y) && !Scc.InSome(earlier, |earlier|, y)
  }

  /** Group `k` starts at `r`, the least node outside the earlier groups, and holds everything
      reached from `r` that no earlier group holds. */
  ghost predicate RootedAt(len: nat, conn: (nat, nat) -> bool, comps: seq<set<nat>>, k: nat, r: nat) {
    && k < |comps|
    && r in comps[k]
    && (forall x :: 0 <= x < r ==> Scc.InSome(comps, k, x))
    && comps[k] == Discovered(len, conn, comps[..k], r)
  }

  /** The groups a depth-first search returns when each search tree is popped whole: a partition
      of the nodes, each group rooted at the least node left over. */
  ghost predicate DfsGroups(len: nat, conn: (nat, nat) -> bool, comps: seq<set<nat>>) {
    && Scc.Partition(len, comps)
    && (forall k: nat :: k < |comps| ==> Rooted(len, conn, comps, k))
  }

  /** Group `k` has a root. */
  ghost predicate Rooted(len: nat, conn: (nat, nat) -> bool, comps: seq<set<nat>>, k: nat) {
    exists r :: RootedAt(len, conn, comps, k, r)
  }

  /** The prefixes `comps` and `comps + [c]` agree below `|comps|`. */
  lemma InSomeKept(comps: seq<set<nat>>, c: set<nat>, k: nat, x: nat)
    requires k <= |comps|
    ensures Scc.InSome(comps + [c], k, x) <==> Scc.InSome(comps, k, x)
    ensures (comps + [c])[..k] == comps[..k]
  {
    if Scc.InSome(comps + [c], k, x) {
      var j :| 0 <= j < k && j < |comps + [c]| && x in (comps + [c])[j];
      assert x in comps[j];
    }
    if Scc.InSome(comps, k, x) {
      var j :| 0 <= j < k && j < |comps| && x in comps[j];
      assert x in (comps + [c])[j];
    }
  }

  lemma InSomePrefix(comps: seq<set<nat>>, k: nat, x: nat)
    requires k <= |comps|
    ensures Scc.InSome(comps[..k], |comps[..k]|, x) <==> Scc.InSome(comps, k, x)
  {
    if Scc.InSome(comps, k, x) {
      var j :| 0 <= j < k && j < |comps| && x in comps[j];
      assert x in comps[..k][j];
    }
  }

  lemma RootedKept(len: nat, conn: (nat, nat) -> bool, comps: seq<set<nat>>, c: set<nat>, k: nat, r: nat)
    requires RootedAt(len, conn, comps, k, r)
    ensures RootedAt(len, conn, comps + [c], k, r)
  {
    forall x | 0 <= x < r ensures Scc.InSome(comps + [c], k, x) {
      InSomeKept(comps, c, k, x);
    }
    InSomeKept(comps, c, k, r);
  }

  /** An edge from a group leads into that group or an earlier one. */
  lemma DfsEdgesGoBack(len: nat, conn: (nat, nat) -> bool, comps: seq<set<nat>>, k: nat, x: nat, y: nat)
    requires DfsGroups(len, conn, comps)
    requires k < |comps| && x in comps[k] && y < len && conn(x, y)
    ensures Scc.InSome(comps, k + 1, y)
  {
    assert Rooted(len, conn, comps, k);
    var r :| RootedAt(len, conn, comps, k, r);
    assert x in Discovered(len, conn, comps[..k], r);
    ReachesStep(len, conn, r, x, y);
    InSomePrefix(comps, k, y);
    if !Scc.InSome(comps, k, y) {
      assert y in Discovered(len, conn, comps[..k], r);
    } else {
      var j :| 0 <= j < k && j < |comps| && y in comps[j];
    }
  }

  /** `x` and `y` lie in a common group. */
  ghost predicate Together(comps: seq<set<nat>>, x: nat, y: nat) {
    exists i :: 0 <= i < |comps| && x in comps[i] && y in comps[i]
  }

  /** The three rules `A -> a`, `A -> B` and `B -> b`. */
  function LoneEdgeRules(): (rules: seq<Rule>)
    ensures |rules| == 3
  {
    [Rule(Variable('A'), [Term(Terminal('a'))]), Rule(Variable('A'), [Var(Variable('B'))]),
     Rule(Variable('B'), [Term(Terminal('b'))])]
  }

  /** The variables of these rules, in ascending order, are `A` and `B`. */
  lemma LoneEdgeVariables(g: RD.RuleGraph)
    requires g.rules == LoneEdgeRules() && RD.VariablesOk(g)
    ensures g.variables == [Variable('A'), Variable('B')]
  {
    var rules := g.rules;
    assert rules[0] in rules && rules[2] in rules;
    assert Variable('A') in g.variables && Variable('B') in g.variables;
    forall i | 0 <= i < |g.variables| ensures g.variables[i] == Variable('A') || g.variables[i] == Variable('B') {
      assert g.variables[i] in g.variables;
      var r :| r in rules && r.clause == g.variables[i];
    }
    forall i | 0 < i < |g.variables| ensures g.variables[i] == Variable('B') {
      assert g.variables[0].symbol < g.variables[i].symbol;
    }
    var j :| 0 <= j < |g.variables| && g.variables[j] == Variable('A');
    assert j == 0;
    var k :| 0 <= k < |g.variables| && g.variables[k] == Variable('B');
    assert 1 < |g.variables| && g.variables[1] == Variable('B');
    SecondBeforeThird(g);
  }

  lemma SecondBeforeThird(g: RD.RuleGraph)
    ensures RD.VariablesOk(g) && |g.variables| > 2 ==> g.variables[1].symbol < g.variables[2].symbol
  {
  }

  /** For these rules (variables `A`, `B` numbered 0 and 1), the search from `A` finds `B`, so both
      share the first group, yet `B` does not reach `A`: the groups are not the strongly connected
      components. */
  lemma LoneEdgeNotStrong(comps: seq<set<nat>>)
    requires DfsGroups(2, RD.Conn(LoneEdgeRules(), [Variable('A'), Variable('B')]), comps)
    ensures Together(comps, 0, 1)
    ensures !Reaches(2, RD.Conn(LoneEdgeRules(), [Variable('A'), Variable('B')]), 1, 0)
    ensures !Scc.SccDecomposition(2, RD.Conn(LoneEdgeRules(), [Variable('A'), Variable('B')]), comps)
  {
    var rules, nodes := LoneEdgeRules(), [Variable('A'), Variable('B')];
    var conn := RD.Conn(rules, nodes);
    assert Scc.InSome(comps, |comps|, 0);
    assert Rooted(2, conn, comps, 0);
    var r :| RootedAt(2, conn, comps, 0, r);
    assert !Scc.InSome(comps, 0, 0);
    assert r == 0;
    assert RD.Leads(rules[1], nodes[0], nodes[1]);
    ReachesEdge(2, conn, 0, 1);
    ReachesRefl(2, conn, 0);
    assert Scc.InSome(comps[..0], 0, 1) == false;
    assert 1 in Discovered(2, conn, comps[..0], 0);
    assert Together(comps, 0, 1);
    forall p | IsPath(2, conn, p) && p[0] == 1 ensures |p| == 1 {
      assert !RD.Leads(rules[2], nodes[1], nodes[0]) && !RD.Leads(rules[2], nodes[1], nodes[1]);
      assert !StepAt(conn, p, 0);
    }
  }

  /** The search object of src/ruledepend.rs: the fields of Tarjan's algorithm, with the nodes
      numbered below `len` and `v` a successor of `u` when `is_connect` holds. */
  class Tarjan {
    const edges: seq<Rule>
    const nodes: seq<Variable>
    const len: nat
    var index: nat
    var stack: seq<nat>
    var indexs: seq<Option<nat>>
    var lowlinks: seq<nat>
    var onStacks: seq<bool>

    /** The successor relation of the search; `Wired` ties it to `is_connect`. */
    ghost const conn: (nat, nat) -> bool

    /** `conn` agrees with `is_connect` wherever the test is safe.  Only a call of `is_connect`
        brings this into play, so the search itself reasons about an abstract relation. */
    ghost predicate Wired() {
      && len == |nodes|
      && forall u, v {:trigger IsConnect(edges, nodes, u, v)} ::
           0 <= u < len && 0 <= v < len && Scannable(edges, nodes[u], nodes[v]) ==> conn(u, v) == IsConnect(edges, nodes, u, v)
    }

    /** Every connection test the search can make is safe. */
    ghost predicate Safe() {
      && len == |nodes|
      && forall u, v :: 0 <= u < len && 0 <= v < len ==> Scannable(edges, nodes[u], nodes[v])
    }

    /** The nodes are numbered in visiting order, a visited node's lowlink is at most its number,
        and the stack holds visited nodes in visiting order, marked exactly in `onStacks`. */
    ghost predicate Valid()
      reads this
    {
      && len == |nodes| && |lowlinks| == len && index <= len
      && Scc.NumsOk(len, index, indexs)
      && Scc.StackOk(len, stack, indexs, onStacks)
      && (forall x :: 0 <= x < len && indexs[x].Some? ==> lowlinks[x] <= indexs[x].value)
    }

    constructor (edges: seq<Rule>, nodes: seq<Variable>)
      ensures this.edges == edges && this.nodes == nodes && len == |nodes| && conn == RD.Conn(edges, nodes)
      ensures Wired() && Valid() && index == 0 && stack == []
      ensures forall x :: 0 <= x < len ==> indexs[x].None? && lowlinks[x] == 0 && !onStacks[x]
    {
      this.edges := edges;
      this.nodes := nodes;
      len := |nodes|;
      index := 0;
      stack := [];
      indexs := seq(|nodes|, _ => None);
      lowlinks := seq(|nodes|, _ => 0);
      onStacks := seq(|nodes|, _ => false);
      conn := RD.Conn(edges, nodes);
      new;
      assert Scc.VisitedSet(indexs) == {};
    }

    /** `_strongconnect`: numbers and stacks `u`, then visits every unvisited successor in increasing
        order, lowering `u`'s lowlink as Tarjan's algorithm does.  Nothing is popped, so the nodes it
        visits are exactly those it pushes; each is reachable from `u` and ends with all its
        successors visited. */
    method Explore(u: nat) returns (ghost pushed: seq<nat>)
      requires Valid() && Safe() && Wired() && u < len && indexs[u].None?
      modifies this
      ensures Valid() && old(index) < index && stack == old(stack) + pushed
      ensures Explored(len, conn, u, len, old(indexs), old(lowlinks), indexs, lowlinks, pushed)
      decreases len - index, 0
    {
      Push(u);
      pushed := [u];
      ReachesRefl(len, conn, u);
      for v := 0 to len
        invariant Valid() && old(index) < index && stack == old(stack) + pushed
        invariant Explored(len, conn, u, v, old(indexs), old(lowlinks), indexs, lowlinks, pushed)
      {
        ghost var more := Try(u, v, old(indexs), old(lowlinks), pushed);
        pushed := pushed + more;
      }
    }

    /** One round of the successor loop of `_strongconnect`: `v` is visited if it is a successor. */
    method Try(u: nat, v: nat, ghost indexs0: seq<Option<nat>>, ghost lowlinks0: seq<nat>, ghost pushed: seq<nat>)
      returns (ghost more: seq<nat>)
      requires Valid() && Safe() && Wired() && u < len && v < len && indexs[u].Some?
      requires Explored(len, conn, u, v, indexs0, lowlinks0, indexs, lowlinks, pushed)
      modifies this
      ensures Valid() && old(index) <= index && stack == old(stack) + more
      ensures Explored(len, conn, u, v + 1, indexs0, lowlinks0, indexs, lowlinks, pushed + more)
      decreases len - index, 2
    {
      more := [];
      if IsConnect(edges, nodes, u, v) {
        more := Visit(u, v);
      }
      ExploredStep(len, conn, u, v, indexs0, lowlinks0, old(indexs), old(lowlinks), pushed, indexs, lowlinks, more);
    }

    /** One successor `v` of the visited node `u`: an unvisited one is explored and lends `u` its
        lowlink, a stacked one its number; the nodes the exploration pushes are reachable from `u`. */
    method Visit(u: nat, v: nat) returns (ghost more: seq<nat>)
      requires Valid() && Safe() && Wired() && u < len && v < len && indexs[u].Some? && conn(u, v)
      modifies this
      ensures Valid() && old(index) <= index && indexs[v].Some?
      ensures stack == old(stack) + more
      ensures Grown(len, old(indexs), old(lowlinks)[u := lowlinks[u]], indexs, lowlinks, more)
      ensures forall x :: x in more ==> Reaches(len, conn, u, x)
      ensures forall x, y :: x in more && 0 <= y < len && conn(x, y) ==> indexs[y].Some?
      decreases len - index, 1
    {
      more := [];
      if indexs[v].None? {
        more := Explore(v);
        forall x | x in more ensures Reaches(len, conn, u, x) {
          ReachesEdge(len, conn, u, v);
          ReachesTrans(len, conn, u, v, x);
        }
        lowlinks := lowlinks[u := Scc.Min(lowlinks[u], lowlinks[v])];
      } else if onStacks[v] {
        lowlinks := lowlinks[u := Scc.Min(lowlinks[u], indexs[v].value)];
      }
    }

    /** Numbers the unvisited node `u` and pushes it. */
    method Push(u: nat)
      requires Valid() && u < len && indexs[u].None?
      modifies this
      ensures Valid() && index == old(index) + 1 && stack == old(stack) + [u]
      ensures indexs == old(indexs)[u := Some(old(index))] && lowlinks == old(lowlinks)[u := old(index)]
      ensures Grown(len, old(indexs), old(lowlinks), indexs, lowlinks, [u])
    {
      Scc.IndexBelowLen(len, index, indexs, u);
      Scc.PushNums(len, index, indexs, u);
      Scc.PushStack(len, index, stack, indexs, onStacks, u);
      indexs := indexs[u := Some(index)];
      lowlinks := lowlinks[u := index];
      index := index + 1;
      stack := stack + [u];
      onStacks := onStacks[u := true];
    }

    /** `strongconnect`: explores from `u` on an empty stack, then pops down to `u`, which lies at
        the bottom, so the group is every node this exploration visited. */
    method StrongConnect(u: nat) returns (scc: set<nat>)
      requires Valid() && Safe() && Wired() && u < len && indexs[u].None? && stack == []
      modifies this
      ensures Valid() && stack == []
      ensures u in scc
      ensures forall x :: 0 <= x < len ==> (indexs[x].Some? <==> old(indexs[x]).Some? || x in scc)
      ensures forall x :: x in scc ==> x < len && old(indexs[x]).None?
      ensures forall x :: x in scc ==> Reaches(len, conn, u, x)
      ensures forall x, y :: x in scc && 0 <= y < len && conn(x, y) ==> indexs[y].Some?
    {
      ghost var full := Explore(u);
      assert full == stack;
      scc := PopTree(u, full);
    }

    /** The popping loop of `strongconnect`: pops until `u`, which lies at the bottom of the stack, so
        everything stacked is popped. */
    method PopTree(u: nat, ghost full: seq<nat>) returns (scc: set<nat>)
      requires Valid() && stack == full && |full| > 0 && full[0] == u
      modifies this
      ensures Valid() && stack == [] && index == old(index) && indexs == old(indexs) && lowlinks == old(lowlinks)
      ensures forall x :: x in scc <==> x in full
    {
      assert full[0..] == full;
      scc := {};
      while |stack| > 0
        invariant Valid() && index == old(index) && indexs == old(indexs) && lowlinks == old(lowlinks)
        invariant |stack| <= |full| && stack == full[..|stack|]
        invariant forall x :: x in scc <==> x in full[|stack|..]
        decreases |stack|
      {
        var v := stack[|stack| - 1];
        assert full[|stack| - 1..] == [v] + full[|stack|..];
        var top := |stack| - 1;
        assert v in Scc.Above(stack, top);
        Scc.StackSplit(len, stack, indexs, onStacks, top, v);
        Scc.EmitStackOk(len, stack, indexs, onStacks, top, onStacks[v := false]);
        stack := stack[..top];
        onStacks := onStacks[v := false];
        scc := scc + {v};
        if v == u {
          break;
        }
      }
    }

    /** `run`: starts a search from every node not yet visited, in increasing order, and returns the
        groups in the order they were popped. */
    method Run() returns (scc: seq<set<nat>>)
      requires Valid() && Safe() && Wired() && stack == [] && forall x :: 0 <= x < len ==> indexs[x].None?
      modifies this
      ensures Valid() && stack == []
      ensures DfsGroups(len, conn, scc)
    {
      scc := [];
      for u := 0 to len
        invariant Valid() && stack == []
        invariant forall x :: 0 <= x < u ==> indexs[x].Some?
        invariant forall x :: 0 <= x < len ==> (indexs[x].Some? <==> Scc.InSome(scc, |scc|, x))
        invariant forall i :: 0 <= i < |scc| ==> scc[i] != {}
        invariant forall i, x :: 0 <= i < |scc| && x in scc[i] ==> x < len
        invariant forall i, j, x :: 0 <= i < |scc| && 0 <= j < |scc| && x in scc[i] && x in scc[j] ==> i == j
        invariant forall x, y :: 0 <= x < len && indexs[x].Some? && 0 <= y < len && conn(x, y) ==> indexs[y].Some?
        invariant forall k: nat :: k < |scc| ==> Rooted(len, conn, scc, k)
      {
        if indexs[u] == None {
          ghost var indexs0, scc0 := indexs, scc;
          var group := StrongConnect(u);
          scc := scc + [group];
          NewGroup(scc0, group, indexs0, u);
        }
      }
      assert Scc.Partition(len, scc) by {
        forall x | 0 <= x < len ensures Scc.InSome(scc, |scc|, x) {
          assert indexs[x].Some?;
        }
      }
    }

    /** Adding the group the last search popped keeps the invariant of `run`. */
    lemma NewGroup(scc0: seq<set<nat>>, group: set<nat>, indexs0: seq<Option<nat>>, u: nat)
      requires |indexs0| == len && |indexs| == len && u < len && indexs0[u].None? && u in group
      requires forall x :: 0 <= x < u ==> indexs0[x].Some?
      requires forall x :: 0 <= x < len ==> (indexs0[x].Some? <==> Scc.InSome(scc0, |scc0|, x))
      requires forall i :: 0 <= i < |scc0| ==> scc0[i] != {}
      requires forall i, x :: 0 <= i < |scc0| && x in scc0[i] ==> x < len
      requires forall i, j, x :: 0 <= i < |scc0| && 0 <= j < |scc0| && x in scc0[i] && x in scc0[j] ==> i == j
      requires forall x, y :: 0 <= x < len && indexs0[x].Some? && 0 <= y < len && conn(x, y) ==> indexs0[y].Some?
      requires forall k: nat :: k < |scc0| ==> Rooted(len, conn, scc0, k)
      requires forall x :: 0 <= x < len ==> (indexs[x].Some? <==> indexs0[x].Some? || x in group)
      requires forall x :: x in group ==> x < len && indexs0[x].None?
      requires forall x :: x in group ==> Reaches(len, conn, u, x)
      requires forall x, y :: x in group && 0 <= y < len && conn(x, y) ==> indexs[y].Some?
      ensures forall x :: 0 <= x < len ==> (indexs[x].Some? <==> Scc.InSome(scc0 + [group], |scc0 + [group]|, x))
      ensures forall i :: 0 <= i < |scc0 + [group]| ==> (scc0 + [group])[i] != {}
      ensures forall i, x :: 0 <= i < |scc0 + [group]| && x in (scc0 + [group])[i] ==> x < len
      ensures forall i, j, x ::
        0 <= i < |scc0 + [group]| && 0 <= j < |scc0 + [group]| && x in (scc0 + [group])[i] && x in (scc0 + [group])[j] ==> i == j
      ensures forall x, y :: 0 <= x < len && indexs[x].Some? && 0 <= y < len && conn(x, y) ==> indexs[y].Some?
      ensures forall k: nat :: k < |scc0 + [group]| ==> Rooted(len, conn, scc0 + [group], k)
    {
      var scc, k := scc0 + [group], |scc0|;
      forall x | 0 <= x < len ensures indexs[x].Some? <==> Scc.InSome(scc, |scc|, x) {
        InSomeKept(scc0, group, k, x);
        if x in group { assert x in scc[k]; }
        if Scc.InSome(scc, |scc|, x) && !Scc.InSome(scc0, k, x) {
          var j :| 0 <= j < |scc| && x in scc[j];
          assert j == k;
        }
      }
      forall i, j, x | 0 <= i < |scc| && 0 <= j < |scc| && x in scc[i] && x in scc[j] ensures i == j {
        if i < k { assert Scc.InSome(scc0, k, x); }
        if j < k { assert Scc.InSome(scc0, k, x); }
      }
      forall x, y | 0 <= x < len && indexs[x].Some? && 0 <= y < len && conn(x, y) ensures indexs[y].Some? {
        if indexs0[x].Some? { assert indexs0[y].Some?; }
      }
      forall i: nat | i < |scc| ensures Rooted(len, conn, scc, i) {
        if i < k {
          assert Rooted(len, conn, scc0, i);
          var r :| RootedAt(len, conn, scc0, i, r);
          RootedKept(len, conn, scc0, group, i, r);
        } else {
          var visited := set x | 0 <= x < len && indexs[x].Some?;
          assert Closed(len, conn, visited);
          forall x | 0 <= x < u ensures Scc.InSome(scc, k, x) {
            InSomeKept(scc0, group, k, x);
          }
          InSomeKept(scc0, group, k, u);
          forall y ensures y in group <==> y in Discovered(len, conn, scc[..k], u) {
            InSomePrefix(scc, k, y);
            InSomeKept(scc0, group, k, y);
            if y in Discovered(len, conn, scc[..k], u) {
              ClosedContainsReach(len, conn, visited, u, y);
            }
          }
          assert RootedAt(len, conn, scc, k, u);
        }
      }
    }
  }

  /** From `indexs0` to `indexs` exactly the nodes of `pushed` became visited, and the numbers and
      lowlinks of the nodes visited before did not change. */
  ghost predicate Grown(len: nat, indexs0: seq<Option<nat>>, lowlinks0: seq<nat>,
                        indexs: seq<Option<nat>>, lowlinks: seq<nat>, pushed: seq<nat>) {
    && |indexs0| == len && |lowlinks0| == len && |indexs| == len && |lowlinks| == len
    && (forall x :: x in pushed ==> x < len && indexs0[x].None?)
    && (forall x :: 0 <= x < len ==> (indexs[x].Some? <==> indexs0[x].Some? || x in pushed))
    && (forall x :: 0 <= x < len && indexs0[x].Some? ==> indexs[x] == indexs0[x] && lowlinks[x] == lowlinks0[x])
  }

  /** What `_strongconnect` has done for `u` once it has tried the successors below `v`: `pushed`
      starts with `u` and holds exactly the nodes it visited, all reachable from `u`; every
      successor of those is visited, save the successors of `u` from `v` on. */
  ghost predicate Explored(len: nat, conn: (nat, nat) -> bool, u: nat, v: nat, indexs0: seq<Option<nat>>, lowlinks0: seq<nat>,
                           indexs: seq<Option<nat>>, lowlinks: seq<nat>, pushed: seq<nat>) {
    && |pushed| > 0 && pushed[0] == u
    && Grown(len, indexs0, lowlinks0, indexs, lowlinks, pushed)
    && (forall x :: x in pushed ==> Reaches(len, conn, u, x))
    && (forall x, y {:trigger conn(x, y)} :: x in pushed && x != u && 0 <= y < len && conn(x, y) ==> indexs[y].Some?)
    && (forall y {:trigger conn(u, y)} :: 0 <= y < v && y < len && conn(u, y) ==> indexs[y].Some?)
  }

  /** Trying the successor `v`: either it is no successor and nothing changes, or visiting it
      pushes `more`, all reachable from `u` and with their successors visited. */
  lemma ExploredStep(len: nat, conn: (nat, nat) -> bool, u: nat, v: nat, indexs0: seq<Option<nat>>, lowlinks0: seq<nat>,
                     indexs1: seq<Option<nat>>, lowlinks1: seq<nat>, pushed: seq<nat>,
                     indexs2: seq<Option<nat>>, lowlinks2: seq<nat>, more: seq<nat>)
    requires Explored(len, conn, u, v, indexs0, lowlinks0, indexs1, lowlinks1, pushed) && u < len && v < len
    requires !conn(u, v) ==> more == [] && indexs2 == indexs1 && lowlinks2 == lowlinks1
    requires conn(u, v) ==> |lowlinks2| == len && Grown(len, indexs1, lowlinks1[u := lowlinks2[u]], indexs2, lowlinks2, more) && indexs2[v].Some?
    requires forall x :: x in more ==> Reaches(len, conn, u, x)
    requires forall x, y :: x in more && 0 <= y < len && conn(x, y) ==> indexs2[y].Some?
    ensures Explored(len, conn, u, v + 1, indexs0, lowlinks0, indexs2, lowlinks2, pushed + more)
  {
    if conn(u, v) {
      GrownPatch(len, indexs0, lowlinks0, indexs1, lowlinks1, pushed, u, lowlinks2[u]);
      GrownTrans(len, indexs0, lowlinks0, indexs1, lowlinks1[u := lowlinks2[u]], indexs2, lowlinks2, pushed, more);
    }
  }

  lemma GrownPatch(len: nat, indexs0: seq<Option<nat>>, lowlinks0: seq<nat>, indexs: seq<Option<nat>>, lowlinks: seq<nat>,
                   pushed: seq<nat>, u: nat, m: nat)
    requires Grown(len, indexs0, lowlinks0, indexs, lowlinks, pushed) && u in pushed
    ensures Grown(len, indexs0, lowlinks0, indexs, lowlinks[u := m], pushed)
  {
  }

  lemma GrownTrans(len: nat, indexs0: seq<Option<nat>>, lowlinks0: seq<nat>, indexs1: seq<Option<nat>>, lowlinks1: seq<nat>,
                   indexs2: seq<Option<nat>>, lowlinks2: seq<nat>, p: seq<nat>, q: seq<nat>)
    requires Grown(len, indexs0, lowlinks0, indexs1, lowlinks1, p)
    requires Grown(len, indexs1, lowlinks1, indexs2, lowlinks2, q)
    ensures Grown(len, indexs0, lowlinks0, indexs2, lowlinks2, p + q)
  {
  }

  /** `new`: the variables are the rule clauses in ascending order, grouped by the depth-first search;
      `indexing` and the group edges are built as in src/rule_depend.rs. */
  method New(rules: seq<Rule>) returns (g: RD.RuleGraph)
    requires forall a, b :: RD.IsClause(rules, a) && RD.IsClause(rules, b) ==> Scannable(rules, a, b)
    ensures g.rules == rules
    ensures RD.GroupsOk(g) && RD.EdgeDown(g.edge)
    ensures DfsGroups(|g.variables|, RD.Conn(g.rules, g.variables), g.nodeGroup)
  {
    var variables := RD.SortedVariables(set r | r in rules :: r.clause);
    var search := new Tarjan(rules, variables);
    ClausesScannable(rules, variables);
    var nodeGroup := search.Run();
    var indexing := RD.IndexGroups(nodeGroup, variables);
    var edge := RD.CheckEdges(nodeGroup, rules, variables);
    g := RD.RuleGraph(nodeGroup, rules, indexing, variables, edge);
    RD.IndexingFindsGroup(g);
    DfsEdgesGoDown(g);
  }

  /** The connection tests `run` makes are between clauses, so they are safe. */
  lemma ClausesScannable(rules: seq<Rule>, variables: seq<Variable>)
    requires forall a, b :: RD.IsClause(rules, a) && RD.IsClause(rules, b) ==> Scannable(rules, a, b)
    requires forall x :: x in variables <==> x in (set r | r in rules :: r.clause)
    ensures forall u, v :: 0 <= u < |variables| && 0 <= v < |variables| ==> Scannable(rules, variables[u], variables[v])
  {
    forall u, v | 0 <= u < |variables| && 0 <= v < |variables| ensures Scannable(rules, variables[u], variables[v]) {
      assert variables[u] in variables && variables[v] in variables;
      assert RD.IsClause(rules, variables[u]) && RD.IsClause(rules, variables[v]);
    }
  }

  /** With depth-first groups no group edge climbs: every successor group was popped earlier. */
  lemma DfsEdgesGoDown(g: RD.RuleGraph)
    requires DfsGroups(|g.variables|, RD.Conn(g.rules, g.variables), g.nodeGroup)
    requires RD.EdgeOk(g)
    ensures RD.EdgeDown(g.edge)
  {
    var conn := RD.Conn(g.rules, g.variables);
    forall i, j | i in g.edge && j in g.edge[i] ensures j < i {
      assert RD.GroupEdge(g.nodeGroup, g.rules, g.variables, i, j);
      var a, b :| a in g.nodeGroup[i] && b in g.nodeGroup[j] && RD.IsConnect(g.rules, g.variables, a, b);
      assert conn(a, b);
      DfsEdgesGoBack(|g.variables|, conn, g.nodeGroup, i, a, b);
      var j' :| 0 <= j' < i + 1 && j' < |g.nodeGroup| && b in g.nodeGroup[j'];
    }
  }

  // ---------------------------------------------------------------------------------------------
  // `get`

  /** The flood fill of `get`: that of `gets_var`, except that every node it checks must have an
      entry in `edge`, or the `unwrap` panics, which is `None` here. */
  method FloodUnwrap<T>(n: nat, edge: map<nat, set<nat>>, seeds: seq<nat>, emit: nat -> seq<T>)
    returns (output: Option<seq<T>>, ghost order: seq<nat>)
    requires RD.EdgesWithin(edge, n)
    requires forall k :: 0 <= k < |seeds| ==> seeds[k] < n
    ensures output.None? <==> exists x: nat :: x < n && RD.FromSeeds(n, edge, seeds, x) && x !in edge
    ensures output.Some? ==> forall x: nat :: x in order <==> x < n && RD.FromSeeds(n, edge, seeds, x)
    ensures output.Some? ==> output.value == RD.Concat(order, emit) && RD.Distinct(order)
  {
    var nodes: seq<nat> := seeds;
    var checked: set<nat> := {};
    var out: seq<T> := [];
    order := [];
    RD.FloodStart(n, edge, seeds);
    while nodes != []
      invariant RD.FloodInv(n, edge, seeds, nodes, checked, order)
      invariant out == RD.Concat(order, emit)
      invariant forall x :: x in checked ==> x in edge
      decreases n - |checked|, |nodes|
    {
      var node := nodes[|nodes| - 1];
      if node in checked {
        RD.FloodSkip(n, edge, seeds, nodes, checked, order);
        nodes := nodes[..|nodes| - 1];
        continue;
      }
      if node !in edge {
        assert node in nodes;
        return None, order;
      }
      var nexts := RD.Successors(edge, node);
      RD.FloodVisit(n, edge, seeds, nodes, checked, order, nexts);
      nodes := nodes[..|nodes| - 1] + nexts;
      checked := checked + {node};
      order := order + [node];
      out := out + emit(node);
    }
    RD.FloodDone(n, edge, seeds, checked, order);
    output := Some(out);
  }

  /** `get` as written: the flood fill of `gets_var` from `v`'s group, except that the successor
      entry of each newly reached group is unwrapped; a reached group without one makes it panic,
      which is `None` here. */
  method Get(g: RD.RuleGraph, v: Variable) returns (r: Option<seq<Variable>>)
    requires RD.GroupsOk(g) && v in g.indexing
    ensures r.None? <==> exists i :: Reaches(|g.nodeGroup|, EdgesOf(g.edge), g.indexing[v], i) && i !in g.edge
    ensures r.Some? ==> forall w :: w in r.value <==>
      w in g.indexing && Reaches(|g.nodeGroup|, EdgesOf(g.edge), g.indexing[v], g.indexing[w])
  {
    RD.EdgesWithinGroups(g);
    var n, seeds := |g.nodeGroup|, RD.Seeds(g, [v]);
    ghost var order;
    r, order := FloodUnwrap(n, g.edge, seeds, RD.VariableEmit(g));
    assert seeds[0] == g.indexing[v];
    forall i: nat ensures RD.FromSeeds(n, g.edge, seeds, i) <==> Reaches(n, EdgesOf(g.edge), g.indexing[v], i) {
      if Reaches(n, EdgesOf(g.edge), g.indexing[v], i) {
        assert seeds[0] in seeds;
      }
    }
    if r.None? {
      ghost var x: nat :| x < n && RD.FromSeeds(n, g.edge, seeds, x) && x !in g.edge;
    } else {
      forall i | Reaches(n, EdgesOf(g.edge), g.indexing[v], i) ensures i in g.edge {
        ReachesBounded(n, EdgesOf(g.edge), g.indexing[v], i);
      }
      RD.VariableOutput(g, [v], order);
      forall w | w in g.indexing
        ensures RD.ReachedGroup(g, [v], g.indexing[w]) <==> Reaches(n, EdgesOf(g.edge), g.indexing[v], g.indexing[w])
      {
        RD.ReachedSingle(g, v, g.indexing[w]);
      }
    }
  }

  /** Following group edges downwards from any reached group ends at one without successors. */
  lemma {:induction false} ReachesSink(g: RD.RuleGraph, s: nat, i: nat)
    requires RD.EdgeOk(g) && RD.EdgeDown(g.edge)
    requires Reaches(|g.nodeGroup|, EdgesOf(g.edge), s, i)
    ensures exists j :: Reaches(|g.nodeGroup|, EdgesOf(g.edge), s, j) && j !in g.edge
    decreases i
  {
    if i in g.edge {
      var j :| j in g.edge[i];
      assert RD.GroupEdge(g.nodeGroup, g.rules, g.variables, i, j);
      ReachesStep(|g.nodeGroup|, EdgesOf(g.edge), s, i, j);
      ReachesSink(g, s, j);
    }
  }

  /** Every group reaches a group without successors, which `check_edges` gives no entry; so on a
      graph whose edges all go down, as `new` builds it, `get` panics for every variable. */
  lemma GetAlwaysPanics(g: RD.RuleGraph, v: Variable)
    requires RD.GroupsOk(g) && RD.EdgeDown(g.edge) && v in g.indexing
    ensures exists i :: Reaches(|g.nodeGroup|, EdgesOf(g.edge), g.indexing[v], i) && i !in g.edge
  {
    ReachesRefl(|g.nodeGroup|, EdgesOf(g.edge), g.indexing[v]);
    ReachesSink(g, g.indexing[v], g.indexing[v]);
  }
}
