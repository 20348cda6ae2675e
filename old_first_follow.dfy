/** The older FIRST and FOLLOW sets (src/firstfollow.rs).  `track_adding` is the one of
    src/first_follow.rs (`FirstFollow.TrackAdding`, driven by `FirstFollow.TrackAll`).  FIRST is
    built group by group over the rule graph instead of by tracking: each group's least variable
    absorbs the sets of every variable whose group its group reaches, and the rest of the group
    copy that set.  FOLLOW keeps no rule numbers and knows no empty rules. */
module OldFirstFollow {
  import opened Wrappers
  import opened Syntax
  import opened Graphs
  import opened Joinable
  import opened MapSets
  import Orders
  import RD = RuleDepend
  import FF = FirstFollow
  import OldRuleDepend

  // ---------------------------------------------------------------------------------------------
  // FIRST

  /** The FIRST sets, one per variable. */
  datatype First = First(sets: map<Variable, set<Terminal>>) {
    /** Reading a FIRST set: a variable with no entry has the empty set. */
    function Get(key: Variable): (r: set<Terminal>)
      ensures key in sets ==> r == sets[key]
      ensures key !in sets ==> r == {}
    {
      Entry(sets, key)
    }
  }

  /** The group of `v` reaches the group of `w` in the group graph of `g`. */
  ghost predicate GroupReaches(g: RD.RuleGraph, v: Variable, w: Variable) {
    v in g.indexing && w in g.indexing && Reaches(|g.nodeGroup|, EdgesOf(g.edge), g.indexing[v], g.indexing[w])
  }

  /** Everything `init` stores under a variable whose group the group of `v` reaches. */
  ghost function Pool(g: RD.RuleGraph, init: map<Variable, set<Terminal>>, v: Variable): set<Terminal> {
    set t, w | w in g.indexing && GroupReaches(g, v, w) && t in Entry(init, w) :: t
  }

  /** The groups in `done` are finished: each of their variables holds its pool; every other
      variable still holds its direct terminals. */
  ghost predicate Settled(g: RD.RuleGraph, init: map<Variable, set<Terminal>>, m: map<Variable, set<Terminal>>, done: set<nat>) {
    forall v :: Entry(m, v) == if v in g.indexing && g.indexing[v] in done then Pool(g, init, v) else Entry(init, v)
  }

  /** `pop_first` on a `BTreeSet<Variable>`: the variable with the least char. */
  method PopFirst(s: set<Variable>) returns (v: Variable)
    requires s != {}
    ensures v in s && forall w :: w in s ==> v.symbol <= w.symbol
  {
    var key := (x: Variable) => x.symbol as int;
    Orders.MinExists(s, key);
    v :| Orders.IsMinBy(v, s, key);
  }

  /** The sets that the first `j` variables of `deps` hold in `m`. */
  ghost function GatheredFrom(m: map<Variable, set<Terminal>>, deps: seq<Variable>, j: nat): set<Terminal> {
    set t, i | 0 <= i < j && i < |deps| && t in Entry(m, deps[i]) :: t
  }

  /** The inner `join` loop of `from_rule`: `firstvar` takes in the set of every variable of `deps`;
      no other variable changes. */
  method JoinAll(m: MapSet<Variable, Terminal>, firstvar: Variable, deps: seq<Variable>)
    modifies m
    ensures Entry(m.content, firstvar) == Entry(old(m.content), firstvar) + GatheredFrom(old(m.content), deps, |deps|)
    ensures forall x :: x != firstvar ==> Entry(m.content, x) == Entry(old(m.content), x)
  {
    ghost var m0 := m.content;
    for j := 0 to |deps|
      invariant Entry(m.content, firstvar) == Entry(m0, firstvar) + GatheredFrom(m0, deps, j)
      invariant forall x :: x != firstvar ==> Entry(m.content, x) == Entry(m0, x)
    {
      ghost var before := m.content;
      FF.JoinedEntry(m.content, firstvar, deps[j]);
      m.Join(firstvar, deps[j]);
      GatheredStep(m0, before, firstvar, deps, j);
    }
  }

  /** Joining the next variable of `deps` into `firstvar` adds that variable's old set. */
  lemma GatheredStep(m0: map<Variable, set<Terminal>>, m: map<Variable, set<Terminal>>, firstvar: Variable, deps: seq<Variable>, j: nat)
    requires j < |deps|
    requires Entry(m, firstvar) == Entry(m0, firstvar) + GatheredFrom(m0, deps, j)
    requires forall x :: x != firstvar ==> Entry(m, x) == Entry(m0, x)
    ensures Entry(m, firstvar) + Entry(m, deps[j]) == Entry(m0, firstvar) + GatheredFrom(m0, deps, j + 1)
  {
    assert GatheredFrom(m0, deps, j + 1) == GatheredFrom(m0, deps, j) + Entry(m0, deps[j]);
    if deps[j] == firstvar {
      assert Entry(m0, deps[j]) <= Entry(m, firstvar);
    }
  }

  /** The variables of `vars` all get `values` in place of what they held (`MapSet::set`). */
  method SetAll(m: MapSet<Variable, Terminal>, vars: set<Variable>, values: set<Terminal>)
    modifies m
    ensures forall x :: x in vars ==> Entry(m.content, x) == values
    ensures forall x :: x !in vars ==> Entry(m.content, x) == Entry(old(m.content), x)
  {
    var todo := vars;
    while todo != {}
      invariant todo <= vars
      invariant forall x :: x in vars && x !in todo ==> Entry(m.content, x) == values
      invariant forall x :: x !in vars || x in todo ==> Entry(m.content, x) == Entry(old(m.content), x)
      decreases todo
    {
      var x :| x in todo;
      m.content := m.content[x := values];
      todo := todo - {x};
    }
  }

  /** The variables of group `id`, named through `indexing`. */
  lemma GroupMembers(g: RD.RuleGraph, id: nat, v: Variable)
    requires RD.GroupsOk(g) && id < |g.nodeGroup|
    ensures v in RD.GroupSet(g, id) <==> v in g.indexing && g.indexing[v] == id
  {
    RD.NamesIndexing(g, id, v);
  }

  /** Only rule clauses have direct terminals, and every clause is indexed. */
  lemma LeadingIndexed(g: RD.RuleGraph, rules: seq<Rule>, v: Variable)
    requires RD.GroupsOk(g) && g.rules == rules
    ensures v !in g.indexing ==> Entry(FF.LeadingTerminals(rules), v) == {}
  {
    if v in FF.LeadingTerminals(rules) {
      var r :| r in rules && |r.output| > 0 && r.output[0].Term? && r.clause == v;
      assert v in g.variables;
    }
  }

  /** What `from_rule` joins for the least variable of an unfinished group is exactly its pool. */
  lemma PoolOfFirst(g: RD.RuleGraph, init: map<Variable, set<Terminal>>, m0: map<Variable, set<Terminal>>,
                    done: set<nat>, firstvar: Variable, deps: seq<Variable>)
    requires RD.GroupsOk(g) && Settled(g, init, m0, done)
    requires firstvar in g.indexing && g.indexing[firstvar] !in done
    requires forall w :: w in deps <==> w in g.indexing && GroupReaches(g, firstvar, w)
    ensures Entry(m0, firstvar) + GatheredFrom(m0, deps, |deps|) == Pool(g, init, firstvar)
  {
    var pool := Pool(g, init, firstvar);
    ReachesRefl(|g.nodeGroup|, EdgesOf(g.edge), g.indexing[firstvar]);
    assert Entry(m0, firstvar) == Entry(init, firstvar);
    forall t | t in Entry(init, firstvar) ensures t in pool {
      assert GroupReaches(g, firstvar, firstvar);
    }
    forall t | t in GatheredFrom(m0, deps, |deps|) ensures t in pool {
      var i :| 0 <= i < |deps| && t in Entry(m0, deps[i]);
      GatheredInPool(g, init, m0, done, firstvar, deps[i], t);
    }
    forall t | t in pool ensures t in GatheredFrom(m0, deps, |deps|) {
      var w :| w in g.indexing && GroupReaches(g, firstvar, w) && t in Entry(init, w);
      assert w in deps;
      var i :| 0 <= i < |deps| && deps[i] == w;
      PoolInGathered(g, init, m0, done, w, t);
    }
  }

  /** What a reached variable holds is in the pool. */
  lemma GatheredInPool(g: RD.RuleGraph, init: map<Variable, set<Terminal>>, m0: map<Variable, set<Terminal>>,
                       done: set<nat>, firstvar: Variable, w: Variable, t: Terminal)
    requires RD.GroupsOk(g) && Settled(g, init, m0, done)
    requires GroupReaches(g, firstvar, w) && t in Entry(m0, w)
    ensures t in Pool(g, init, firstvar)
  {
    if g.indexing[w] in done {
      assert t in Pool(g, init, w);
      var w' :| w' in g.indexing && GroupReaches(g, w, w') && t in Entry(init, w');
      ReachesTrans(|g.nodeGroup|, EdgesOf(g.edge), g.indexing[firstvar], g.indexing[w], g.indexing[w']);
      assert GroupReaches(g, firstvar, w');
    }
  }

  /** A reached variable holds at least its direct terminals. */
  lemma PoolInGathered(g: RD.RuleGraph, init: map<Variable, set<Terminal>>, m0: map<Variable, set<Terminal>>,
                       done: set<nat>, w: Variable, t: Terminal)
    requires RD.GroupsOk(g) && Settled(g, init, m0, done)
    requires w in g.indexing && t in Entry(init, w)
    ensures t in Entry(m0, w)
  {
    if g.indexing[w] in done {
      ReachesRefl(|g.nodeGroup|, EdgesOf(g.edge), g.indexing[w]);
      assert GroupReaches(g, w, w);
      assert t in Pool(g, init, w);
    }
  }

  /** Two variables of one group have the same pool. */
  lemma PoolOfGroup(g: RD.RuleGraph, init: map<Variable, set<Terminal>>, v: Variable, w: Variable)
    requires v in g.indexing && w in g.indexing && g.indexing[v] == g.indexing[w]
    ensures Pool(g, init, v) == Pool(g, init, w)
  {
    forall u ensures GroupReaches(g, v, u) == GroupReaches(g, w, u) {
    }
  }

  /** After the group of `firstvar` is settled in place: `firstvar` holds its pool, the rest of
      the group holds what `firstvar` holds, and nothing else changed. */
  lemma SettledAfter(g: RD.RuleGraph, init: map<Variable, set<Terminal>>, m0: map<Variable, set<Terminal>>,
                     m1: map<Variable, set<Terminal>>, m2: map<Variable, set<Terminal>>,
                     done: set<nat>, id: nat, varset: set<Variable>, firstvar: Variable)
    requires RD.GroupsOk(g) && id < |g.nodeGroup| && varset == RD.GroupSet(g, id) && firstvar in varset
    requires Settled(g, init, m0, done)
    requires firstvar in g.indexing && Entry(m1, firstvar) == Pool(g, init, firstvar)
    requires forall x :: x != firstvar ==> Entry(m1, x) == Entry(m0, x)
    requires forall x :: x in varset - {firstvar} ==> Entry(m2, x) == Entry(m1, firstvar)
    requires forall x :: x !in varset - {firstvar} ==> Entry(m2, x) == Entry(m1, x)
    ensures Settled(g, init, m2, done + {id})
  {
    forall v ensures Entry(m2, v) == if v in g.indexing && g.indexing[v] in done + {id} then Pool(g, init, v) else Entry(init, v) {
      GroupMembers(g, id, v);
      if v in varset - {firstvar} {
        PoolOfGroup(g, init, v, firstvar);
      } else if v != firstvar {
        assert Entry(m2, v) == Entry(m0, v);
      }
    }
  }

  /** A group with no variables is settled as it stands. */
  lemma SettledEmpty(g: RD.RuleGraph, init: map<Variable, set<Terminal>>, m: map<Variable, set<Terminal>>, done: set<nat>, id: nat)
    requires RD.GroupsOk(g) && id < |g.nodeGroup| && RD.GroupSet(g, id) == {}
    requires Settled(g, init, m, done)
    ensures Settled(g, init, m, done + {id})
  {
    forall v ensures Entry(m, v) == if v in g.indexing && g.indexing[v] in done + {id} then Pool(g, init, v) else Entry(init, v) {
      GroupMembers(g, id, v);
    }
  }

  /** One pass of the group loop of `from_rule` over one group: its least variable joins in every
      variable `get` returns, and the rest of the group is set to the result. */
  method SettleGroup(g: RD.RuleGraph, m: MapSet<Variable, Terminal>, ghost init: map<Variable, set<Terminal>>,
                     ghost done: set<nat>, ghost id: nat, varset: set<Variable>)
    requires RD.GroupsOk(g) && id < |g.nodeGroup| && id !in done
    requires varset == RD.GroupSet(g, id)
    requires Settled(g, init, m.content, done)
    modifies m
    ensures Settled(g, init, m.content, done + {id})
  {
    if varset != {} {
      var firstvar := PopFirst(varset);
      GroupMembers(g, id, firstvar);
      var deps := RD.Get(g, firstvar);
      ghost var m0 := m.content;
      JoinAll(m, firstvar, deps);
      PoolOfFirst(g, init, m0, done, firstvar, deps);
      var trueTerminal := m.Get(firstvar);
      ghost var m1 := m.content;
      SetAll(m, varset - {firstvar}, trueTerminal);
      SettledAfter(g, init, m0, m1, m.content, done, id, varset, firstvar);
    } else {
      SettledEmpty(g, init, m.content, done, id);
    }
  }

  /** The first loop of `from_rule`: the terminal each rule starts with, under its clause. */
  method DirectTerminals(rules: seq<Rule>) returns (m: MapSet<Variable, Terminal>)
    ensures fresh(m) && m.content == FF.LeadingTerminals(rules)
  {
    m := new MapSet<Variable, Terminal>();
    for i := 0 to |rules|
      invariant m.content == FF.LeadingTerminals(rules[..i])
    {
      var rule := rules[i];
      FF.TerminalsStep(rules[..i], rule);
      assert rules[..i + 1] == rules[..i] + [rule];
      if |rule.output| > 0 && rule.output[0].Term? {
        m.Add(rule.clause, rule.output[0].t);
      }
    }
    assert rules[..|rules|] == rules;
  }

  /** `toposort`, as far as `from_rule` relies on it: every group once, named by its variables. */
  method GroupOrder(g: RD.RuleGraph) returns (groups: seq<set<Variable>>, ghost order: seq<nat>)
    requires RD.GroupsOk(g) && RD.EdgeDown(g.edge)
    ensures |groups| == |order| && RD.Distinct(order)
    ensures forall k :: 0 <= k < |order| ==> order[k] < |g.nodeGroup| && groups[k] == RD.GroupSet(g, order[k])
    ensures forall i: nat :: i < |g.nodeGroup| ==> i in order
  {
    groups, order := RD.Toposort(g);
  }

  /** With every group settled, each variable holds its pool. */
  lemma SettledAll(g: RD.RuleGraph, rules: seq<Rule>, m: map<Variable, set<Terminal>>, done: set<nat>)
    requires RD.GroupsOk(g) && g.rules == rules
    requires Settled(g, FF.LeadingTerminals(rules), m, done)
    requires forall i: nat :: i < |g.nodeGroup| ==> i in done
    ensures forall v :: Entry(m, v) == Pool(g, FF.LeadingTerminals(rules), v)
  {
    forall v ensures Entry(m, v) == Pool(g, FF.LeadingTerminals(rules), v) {
      if v !in g.indexing {
        LeadingIndexed(g, rules, v);
      }
    }
  }

  /** `First::from_rule`: every rule that starts with a terminal puts it under its clause; then,
      group by group in `toposort` order, the least variable takes in the sets of every variable
      `get` returns for it and the other variables of the group copy that set.  Whatever the order,
      each variable ends with every direct terminal of a variable whose group its group reaches. */
  method FromRule(rules: seq<Rule>, g: RD.RuleGraph) returns (first: First)
    requires RD.GroupsOk(g) && RD.EdgeDown(g.edge) && g.rules == rules
    ensures forall v :: Entry(first.sets, v) == Pool(g, FF.LeadingTerminals(rules), v)
  {
    var m := DirectTerminals(rules);
    ghost var init := m.content;
    ghost var done: set<nat> := {};
    var groups, order := GroupOrder(g);
    for k := 0 to |groups|
      invariant Settled(g, init, m.content, done)
      invariant forall i :: i in done <==> i in order[..k]
    {
      assert order[k] !in done by {
        if order[k] in done {
          var j :| 0 <= j < k && order[j] == order[k];
          RD.DistinctIndices(order, j, k);
        }
      }
      SettleGroup(g, m, init, done, order[k], groups[k]);
      assert order[..k + 1] == order[..k] + [order[k]];
      done := done + {order[k]};
    }
    assert order[..|groups|] == order;
    SettledAll(g, rules, m.content, done);
    first := First(m.content);
  }

  /** A rule `A -> t ...` puts `t` in the FIRST set of `A`. */
  lemma LeadingTerminalPooled(g: RD.RuleGraph, rules: seq<Rule>, rule: Rule)
    requires RD.GroupsOk(g) && g.rules == rules
    requires rule in rules && |rule.output| > 0 && rule.output[0].Term?
    ensures rule.output[0].t in Pool(g, FF.LeadingTerminals(rules), rule.clause)
  {
    var c := rule.clause;
    assert c in g.variables;
    ReachesRefl(|g.nodeGroup|, EdgesOf(g.edge), g.indexing[c]);
    assert GroupReaches(g, c, c);
    assert rule.output[0].t in Entry(FF.LeadingTerminals(rules), c);
  }

  /** The group of the least variable settles every variable of the group to the same set. */
  lemma GroupShares(g: RD.RuleGraph, rules: seq<Rule>, v: Variable, w: Variable)
    requires v in g.indexing && w in g.indexing && g.indexing[v] == g.indexing[w]
    ensures Pool(g, FF.LeadingTerminals(rules), v) == Pool(g, FF.LeadingTerminals(rules), w)
  {
    PoolOfGroup(g, FF.LeadingTerminals(rules), v, w);
  }

  // ---------------------------------------------------------------------------------------------
  // With strongly connected groups: the FIRST sets of src/first_follow.rs

  /** A walk along leading-variable edges that ends at a clause is a chain of clauses. */
  lemma WalkIsChain(rules: seq<Rule>, p: seq<Variable>)
    requires FF.IsWalk(FF.LeadingVariables(rules), p) && RD.IsClause(rules, p[|p| - 1])
    ensures RD.IsChain(rules, p)
  {
    var track := FF.LeadingVariables(rules);
    forall i: nat | i < |p| - 1 ensures RD.ChainStep(rules, p, i) && RD.IsClause(rules, p[i]) {
      assert FF.Follows(track, p, i);
      assert p[i] in track;
      var r :| r in rules && r.clause == p[i] && |r.output| > 0 && r.output[0].Var? && r.output[0].v == p[i + 1];
      var k :| 0 <= k < |rules| && rules[k] == r;
      assert RD.Leads(rules[k], p[i], p[i + 1]);
    }
  }

  /** A chain of clauses is a walk along leading-variable edges. */
  lemma ChainIsWalk(rules: seq<Rule>, p: seq<Variable>)
    requires RD.IsChain(rules, p)
    ensures FF.IsWalk(FF.LeadingVariables(rules), p)
  {
    var track := FF.LeadingVariables(rules);
    forall i: nat | i < |p| - 1 ensures FF.Follows(track, p, i) {
      assert RD.ChainStep(rules, p, i);
      var k :| 0 <= k < |rules| && RD.Leads(rules[k], p[i], p[i + 1]);
      assert rules[k] in rules;
      assert p[i] in FF.VariableLed(rules);
      assert p[i + 1] in FF.VariablesLeading(rules, p[i]);
    }
  }

  /** Over strongly connected groups, the pool of `v` is its FIRST set as src/first_follow.rs
      computes it: what `v` gathers by tracking leading variables. */
  lemma PoolIsTracked(g: RD.RuleGraph, rules: seq<Rule>, v: Variable, t: Terminal)
    requires RD.GraphOk(g) && g.rules == rules
    ensures t in Pool(g, FF.LeadingTerminals(rules), v) <==> FF.Gathers(FF.LeadingVariables(rules), FF.LeadingTerminals(rules), v, t)
  {
    if t in Pool(g, FF.LeadingTerminals(rules), v) {
      PooledIsTracked(g, rules, v, t);
    }
    if FF.Gathers(FF.LeadingVariables(rules), FF.LeadingTerminals(rules), v, t) {
      TrackedIsPooled(g, rules, v, t);
    }
  }

  lemma PooledIsTracked(g: RD.RuleGraph, rules: seq<Rule>, v: Variable, t: Terminal)
    requires RD.GraphOk(g) && g.rules == rules
    requires t in Pool(g, FF.LeadingTerminals(rules), v)
    ensures FF.Gathers(FF.LeadingVariables(rules), FF.LeadingTerminals(rules), v, t)
  {
    var w :| w in g.indexing && GroupReaches(g, v, w) && t in Entry(FF.LeadingTerminals(rules), w);
    RD.GroupReachIsChain(g, v, w);
    var p :| RD.IsChain(rules, p) && p[0] == v && p[|p| - 1] == w;
    ChainIsWalk(rules, p);
    assert FF.Tracks(FF.LeadingVariables(rules), v, w);
  }

  lemma TrackedIsPooled(g: RD.RuleGraph, rules: seq<Rule>, v: Variable, t: Terminal)
    requires RD.GraphOk(g) && g.rules == rules
    requires FF.Gathers(FF.LeadingVariables(rules), FF.LeadingTerminals(rules), v, t)
    ensures t in Pool(g, FF.LeadingTerminals(rules), v)
  {
    var track := FF.LeadingVariables(rules);
    var w :| FF.Tracks(track, v, w) && t in Entry(FF.LeadingTerminals(rules), w);
    var p :| FF.IsWalk(track, p) && p[0] == v && p[|p| - 1] == w;
    var r :| r in rules && |r.output| > 0 && r.output[0].Term? && r.clause == w;
    assert RD.IsClause(rules, w);
    WalkIsChain(rules, p);
    assert RD.LeftReaches(rules, v, w);
    assert RD.IsClause(rules, v) by {
      assert RD.IsChain(rules, p);
      assert RD.IsClause(rules, p[0]);
    }
    assert v in g.variables && w in g.variables;
    RD.GroupReachIsChain(g, v, w);
    assert GroupReaches(g, v, w);
  }

  // ---------------------------------------------------------------------------------------------
  // With the groups of the depth-first search: a FIRST set too large

  /** For `A -> a`, `A -> B`, `B -> b`, any graph whose groups come from the search of
      src/ruledepend.rs puts `A` and `B` in one group, so the FIRST set of `B` holds `a`. */
  lemma LoneEdgeFirstTooLarge(g: RD.RuleGraph)
    requires g.rules == OldRuleDepend.LoneEdgeRules() && RD.GroupsOk(g)
    requires OldRuleDepend.DfsGroups(|g.variables|, RD.Conn(g.rules, g.variables), g.nodeGroup)
    ensures Terminal('a') in Pool(g, FF.LeadingTerminals(g.rules), Variable('B'))
  {
    var a, b := Variable('A'), Variable('B');
    OldRuleDepend.LoneEdgeVariables(g);
    OldRuleDepend.LoneEdgeNotStrong(g.nodeGroup);
    var k :| 0 <= k < |g.nodeGroup| && 0 in g.nodeGroup[k] && 1 in g.nodeGroup[k];
    assert g.indexing[a] == k && g.indexing[b] == k by {
      assert g.variables[0] == a && g.variables[1] == b;
      RD.NamesIndexing(g, k, a);
      RD.NamesIndexing(g, k, b);
    }
    ReachesRefl(|g.nodeGroup|, EdgesOf(g.edge), k);
    assert GroupReaches(g, b, a);
    assert g.rules[0] in g.rules;
    assert Terminal('a') in Entry(FF.LeadingTerminals(g.rules), a);
  }

  /** No derivation of `B` starts with `a`: the FIRST set of src/first_follow.rs leaves it out. */
  lemma LoneEdgeFirstOfB()
    ensures !FF.Gathers(FF.LeadingVariables(OldRuleDepend.LoneEdgeRules()), FF.LeadingTerminals(OldRuleDepend.LoneEdgeRules()),
                        Variable('B'), Terminal('a'))
  {
    var rules := OldRuleDepend.LoneEdgeRules();
    var b := Variable('B');
    var track, init := FF.LeadingVariables(rules), FF.LeadingTerminals(rules);
    assert b !in FF.VariableLed(rules) by {
      forall r | r in rules && |r.output| > 0 && r.output[0].Var? ensures r.clause != b {
      }
    }
    assert Entry(init, b) == FF.TerminalsLeading(rules, b);
    forall w | FF.Tracks(track, b, w) ensures Terminal('a') !in Entry(init, w) {
      FF.TracksFromSink(track, b, w);
      forall r | r in rules && r.clause == b && |r.output| > 0 && r.output[0].Term? ensures r.output[0].t != Terminal('a') {
      }
    }
  }

  // ---------------------------------------------------------------------------------------------
  // FOLLOW

  /** The FOLLOW sets, one per variable, without rule numbers. */
  datatype Follow = Follow(sets: map<Variable, set<Terminal>>) {
    /** `Follow::get`: a variable with no entry has the empty set. */
    function Get(key: Variable): (r: set<Terminal>)
      ensures key in sets ==> r == sets[key]
      ensures key !in sets ==> r == {}
    {
      Entry(sets, key)
    }
  }

  /** The older FIRST sets read as the newer ones with no empty rules, which the older FOLLOW does
      not know: its track edges come only from a variable that ends a rule. */
  function AsNew(first: First): (f: FF.First)
    ensures f.sets == first.sets && f.empty == {}
  {
    FF.First(first.sets, {})
  }

  /** The terminals of a set of rule-tagged terminals. */
  function Terminals(e: set<FF.Tagged>): (r: set<Terminal>)
    ensures forall t :: t in r <==> exists n: nat :: FF.Tagged(n, t) in e
  {
    set x | x in e :: x.terminal
  }

  /** The map with every rule tag dropped. */
  function Untag(m: map<Variable, set<FF.Tagged>>): (r: map<Variable, set<Terminal>>)
    ensures r.Keys == m.Keys
    ensures forall k :: k in m ==> r[k] == Terminals(m[k])
  {
    map k | k in m :: Terminals(m[k])
  }

  lemma UntagAppended(m: map<Variable, set<FF.Tagged>>, key: Variable, e: set<FF.Tagged>)
    ensures Untag(Appended(m, key, e)) == Appended(Untag(m), key, Terminals(e))
  {
    var a, b := Untag(Appended(m, key, e)), Appended(Untag(m), key, Terminals(e));
    forall k | k in a ensures a[k] == b[k] {
      if k == key {
        assert Entry(Untag(m), key) == Terminals(Entry(m, key));
      }
    }
  }

  lemma UntagAdded(m: map<Variable, set<FF.Tagged>>, key: Variable, r: nat, t: Terminal)
    ensures Untag(Appended(m, key, {FF.Tagged(r, t)})) == Added(Untag(m), key, t)
  {
    UntagAppended(m, key, {FF.Tagged(r, t)});
    assert Terminals({FF.Tagged(r, t)}) == {t};
    AddedIsAppended(Untag(m), key, t);
  }

  /** The direct FOLLOW entries of the older code: those of the newer code without their tags. */
  ghost function FollowBase(rules: seq<Rule>, first: First): map<Variable, set<Terminal>> {
    Untag(FF.FollowBase(rules, AsNew(first)))
  }

  /** The FOLLOW track edges of the older code: `V -> A` when a rule of `A` ends in `V` and `V` is
      not `A`. */
  ghost function FollowTrack(rules: seq<Rule>, first: First): map<Variable, set<Variable>> {
    FF.FollowTrack(rules, AsNew(first))
  }

  /** Reading position `(r, i)` of the older FOLLOW loop: a variable followed by a terminal adds
      that terminal, a variable followed by a variable appends that variable's FIRST set. */
  lemma BaseStep(rules: seq<Rule>, first: First, r: nat, i: nat)
    requires r < |rules| && i < |rules[r].output|
    ensures var out := rules[r].output;
      var base := Untag(FF.FollowBaseUpTo(rules, AsNew(first), r, i));
      Untag(FF.FollowBaseUpTo(rules, AsNew(first), r, i + 1)) ==
        if i + 1 < |out| && out[i].Var? then
          match out[i + 1]
          case Term(t) => Added(base, out[i].v, t)
          case Var(w) => Appended(base, out[i].v, first.Get(w))
        else base
  {
    var out := rules[r].output;
    FF.FollowBaseStep(rules, AsNew(first), r, i);
    if i + 1 < |out| && out[i].Var? {
      match out[i + 1]
      case Term(t) => BaseStepTerminal(rules, first, r, i, out[i].v, t);
      case Var(w) => BaseStepVariable(rules, first, r, i, out[i].v, w);
    }
  }

  lemma BaseStepTerminal(rules: seq<Rule>, first: First, r: nat, i: nat, v: Variable, t: Terminal)
    requires r < |rules| && i + 1 < |rules[r].output| && rules[r].output[i] == Var(v) && rules[r].output[i + 1] == Term(t)
    requires FF.FollowBaseUpTo(rules, AsNew(first), r, i + 1) ==
      Appended(FF.FollowBaseUpTo(rules, AsNew(first), r, i), v, FF.EntriesAt(rules, AsNew(first), r, i, v))
    ensures Untag(FF.FollowBaseUpTo(rules, AsNew(first), r, i + 1)) == Added(Untag(FF.FollowBaseUpTo(rules, AsNew(first), r, i)), v, t)
  {
    assert FF.EntriesAt(rules, AsNew(first), r, i, v) == {FF.Tagged(r, t)};
    UntagAdded(FF.FollowBaseUpTo(rules, AsNew(first), r, i), v, r, t);
  }

  lemma BaseStepVariable(rules: seq<Rule>, first: First, r: nat, i: nat, v: Variable, w: Variable)
    requires r < |rules| && i + 1 < |rules[r].output| && rules[r].output[i] == Var(v) && rules[r].output[i + 1] == Var(w)
    requires FF.FollowBaseUpTo(rules, AsNew(first), r, i + 1) ==
      Appended(FF.FollowBaseUpTo(rules, AsNew(first), r, i), v, FF.EntriesAt(rules, AsNew(first), r, i, v))
    ensures Untag(FF.FollowBaseUpTo(rules, AsNew(first), r, i + 1)) == Appended(Untag(FF.FollowBaseUpTo(rules, AsNew(first), r, i)), v, first.Get(w))
  {
    var base := FF.FollowBaseUpTo(rules, AsNew(first), r, i);
    assert FF.EntriesAt(rules, AsNew(first), r, i, v) == FF.TagAll(r, Entry(first.sets, w));
    UntagAppended(base, v, FF.TagAll(r, Entry(first.sets, w)));
    assert Terminals(FF.TagAll(r, Entry(first.sets, w))) == first.Get(w);
  }

  /** Reading position `(r, i)` of the older FOLLOW loop: a variable that ends the rule gets a track
      edge to the clause unless it is the clause. */
  lemma TrackStep(rules: seq<Rule>, first: First, r: nat, i: nat)
    requires r < |rules| && i < |rules[r].output|
    ensures var out := rules[r].output;
      var track := FF.FollowTrackUpTo(rules, AsNew(first), r, i);
      FF.FollowTrackUpTo(rules, AsNew(first), r, i + 1) ==
        if out[i].Var? && i + 1 == |out| && out[i].v != rules[r].clause then Added(track, out[i].v, rules[r].clause)
        else track
  {
    FF.FollowTrackStep(rules, AsNew(first), r, i);
  }

  /** The body of the FOLLOW loop at position `(r, i)`: a variable followed by a terminal takes it,
      a variable followed by a variable takes that variable's FIRST set, and a variable that ends
      the rule gets a track edge to the clause unless it is the clause. */
  method FollowAt(first: First, rules: seq<Rule>, r: nat, i: nat, m: MapSet<Variable, Terminal>, track: MapSet<Variable, Variable>)
    requires r < |rules| && i < |rules[r].output|
    requires m.content == Untag(FF.FollowBaseUpTo(rules, AsNew(first), r, i))
    requires track.content == FF.FollowTrackUpTo(rules, AsNew(first), r, i)
    modifies m, track
    ensures m.content == Untag(FF.FollowBaseUpTo(rules, AsNew(first), r, i + 1))
    ensures track.content == FF.FollowTrackUpTo(rules, AsNew(first), r, i + 1)
  {
    BaseStep(rules, first, r, i);
    TrackStep(rules, first, r, i);
    var out := rules[r].output;
    if out[i].Var? {
      var variable := out[i].v;
      if i + 1 == |out| {
        if variable != rules[r].clause {
          track.Add(variable, rules[r].clause);
        }
      } else {
        match out[i + 1]
        case Term(t) => m.Add(variable, t);
        case Var(w) => m.Append(variable, first.Get(w));
      }
    }
  }

  /** One pass of the FOLLOW loop over rule `r`, leaving it after its last variable. */
  method FollowRule(first: First, rules: seq<Rule>, r: nat, m: MapSet<Variable, Terminal>, track: MapSet<Variable, Variable>)
    requires r < |rules|
    requires m.content == Untag(FF.FollowBaseUpTo(rules, AsNew(first), r, 0))
    requires track.content == FF.FollowTrackUpTo(rules, AsNew(first), r, 0)
    modifies m, track
    ensures m.content == Untag(FF.FollowBaseUpTo(rules, AsNew(first), r + 1, 0))
    ensures track.content == FF.FollowTrackUpTo(rules, AsNew(first), r + 1, 0)
  {
    var out := rules[r].output;
    var i := 0;
    while i < |out|
      invariant i <= |out|
      invariant m.content == Untag(FF.FollowBaseUpTo(rules, AsNew(first), r, i))
      invariant track.content == FF.FollowTrackUpTo(rules, AsNew(first), r, i)
    {
      FollowAt(first, rules, r, i, m, track);
      if out[i].Var? && i + 1 == |out| {
        i := i + 1;
        break;
      }
      i := i + 1;
    }
    FF.FollowRuleDone(rules, AsNew(first), r);
  }

  /** `Follow::new`: the direct entries and track edges of every rule, then `track_adding` from
      every source of a track edge. */
  method NewFollow(first: First, rules: seq<Rule>) returns (follow: Follow)
    ensures forall v, t :: t in Entry(follow.sets, v) <==> FF.Gathers(FollowTrack(rules, first), FollowBase(rules, first), v, t)
  {
    var track := new MapSet<Variable, Variable>();
    var m := new MapSet<Variable, Terminal>();
    FF.FollowStart(rules, AsNew(first));
    assert Untag(map[]) == map[];
    for r := 0 to |rules|
      invariant m.content == Untag(FF.FollowBaseUpTo(rules, AsNew(first), r, 0))
      invariant track.content == FF.FollowTrackUpTo(rules, AsNew(first), r, 0)
    {
      FollowRule(first, rules, r, m, track);
    }
    FF.TrackAll(track.content, m);
    follow := Follow(m.content);
  }

  /** Dropping tags before or after tracking gives the same terminals. */
  lemma UntagGathers(track: map<Variable, set<Variable>>, base: map<Variable, set<FF.Tagged>>, v: Variable, t: Terminal)
    ensures FF.Gathers(track, Untag(base), v, t) <==> exists n: nat :: FF.Gathers(track, base, v, FF.Tagged(n, t))
  {
    if FF.Gathers(track, Untag(base), v, t) {
      var w :| FF.Tracks(track, v, w) && t in Entry(Untag(base), w);
      var n: nat :| FF.Tagged(n, t) in Entry(base, w);
      assert FF.Gathers(track, base, v, FF.Tagged(n, t));
    }
    if exists n: nat :: FF.Gathers(track, base, v, FF.Tagged(n, t)) {
      var n: nat :| FF.Gathers(track, base, v, FF.Tagged(n, t));
      var w :| FF.Tracks(track, v, w) && FF.Tagged(n, t) in Entry(base, w);
      assert t in Entry(Untag(base), w);
    }
  }

  /** The older FOLLOW set of `v` is what `Follow::get` of src/first_follow.rs returns for FIRST sets
      with no empty rules: every terminal that follows `v` by some rule. */
  lemma FollowIsNewGet(first: First, rules: seq<Rule>, follow: FF.Follow, v: Variable, t: Terminal)
    requires forall u, e :: e in Entry(follow.sets, u) <==> FF.Gathers(FF.FollowTrack(rules, AsNew(first)), FF.FollowBase(rules, AsNew(first)), u, e)
    ensures FF.Gathers(FollowTrack(rules, first), FollowBase(rules, first), v, t) <==> t in follow.Get(v)
  {
    UntagGathers(FF.FollowTrack(rules, AsNew(first)), FF.FollowBase(rules, AsNew(first)), v, t);
  }

  /** A terminal right after variable `v` in a rule follows `v`. */
  lemma FollowHasNextTerminal(rules: seq<Rule>, first: First, r: nat, i: nat, v: Variable, t: Terminal)
    requires r < |rules| && i + 1 < |rules[r].output|
    requires rules[r].output[i] == Var(v) && rules[r].output[i + 1] == Term(t)
    ensures FF.Gathers(FollowTrack(rules, first), FollowBase(rules, first), v, t)
  {
    FF.FollowHasNextTerminal(rules, AsNew(first), r, i, v, t);
    UntagGathers(FF.FollowTrack(rules, AsNew(first)), FF.FollowBase(rules, AsNew(first)), v, t);
  }

  /** The FIRST set of the variable right after variable `v` in a rule follows `v`. */
  lemma FollowHasNextFirst(rules: seq<Rule>, first: First, r: nat, i: nat, v: Variable, w: Variable, t: Terminal)
    requires r < |rules| && i + 1 < |rules[r].output|
    requires rules[r].output[i] == Var(v) && rules[r].output[i + 1] == Var(w) && t in first.Get(w)
    ensures FF.Gathers(FollowTrack(rules, first), FollowBase(rules, first), v, t)
  {
    FF.FollowHasNextFirst(rules, AsNew(first), r, i, v, w, t);
    UntagGathers(FF.FollowTrack(rules, AsNew(first)), FF.FollowBase(rules, AsNew(first)), v, t);
  }

  /** A variable that ends a rule takes in everything that follows the clause, unless it is the
      clause itself. */
  lemma FollowHasClauseFollow(rules: seq<Rule>, first: First, r: nat, v: Variable, t: Terminal)
    requires r < |rules| && |rules[r].output| > 0
    requires rules[r].output[|rules[r].output| - 1] == Var(v) && v != rules[r].clause
    requires FF.Gathers(FollowTrack(rules, first), FollowBase(rules, first), rules[r].clause, t)
    ensures FF.Gathers(FollowTrack(rules, first), FollowBase(rules, first), v, t)
  {
    var track, base := FF.FollowTrack(rules, AsNew(first)), FF.FollowBase(rules, AsNew(first));
    UntagGathers(track, base, rules[r].clause, t);
    var n: nat :| FF.Gathers(track, base, rules[r].clause, FF.Tagged(n, t));
    FF.FollowHasClauseFollow(rules, AsNew(first), r, |rules[r].output| - 1, v, FF.Tagged(n, t));
    UntagGathers(track, base, v, t);
  }
}
