/** FIRST and FOLLOW sets (src/first_follow.rs).  Both are built in two stages: direct
    contributions read off the rules, then `track_adding` pulls in the sets of every variable the
    first one depends on, along "track" edges. */
module FirstFollow {
  import opened Wrappers
  import opened Syntax
  import opened Joinable
  import opened MapSets

  // ---------------------------------------------------------------------------------------------
  // Walks along track edges

  /** The step from position `i` of `p` to the next follows a track edge. */
  ghost predicate Follows(track: map<Variable, set<Variable>>, p: seq<Variable>, i: nat) {
    i + 1 < |p| && p[i + 1] in Entry(track, p[i])
  }

  /** A non-empty walk along track edges. */
  ghost predicate IsWalk(track: map<Variable, set<Variable>>, p: seq<Variable>) {
    |p| > 0 && forall i: nat :: i < |p| - 1 ==> Follows(track, p, i)
  }

  /** `b` can be reached from `a` in zero or more track steps. */
  ghost predicate Tracks(track: map<Variable, set<Variable>>, a: Variable, b: Variable) {
    exists p :: IsWalk(track, p) && p[0] == a && p[|p| - 1] == b
  }

  /** `x` is stored, in `init`, under some node reachable from `a`. */
  ghost predicate Gathers<V(!new)>(track: map<Variable, set<Variable>>, init: map<Variable, set<V>>, a: Variable, x: V) {
    exists b :: Tracks(track, a, b) && x in Entry(init, b)
  }

  lemma TracksRefl(track: map<Variable, set<Variable>>, a: Variable)
    ensures Tracks(track, a, a)
  {
    assert IsWalk(track, [a]);
  }

  /** A track edge followed by a walk is a walk. */
  lemma TracksPrepend(track: map<Variable, set<Variable>>, a: Variable, b: Variable, c: Variable)
    requires b in Entry(track, a) && Tracks(track, b, c)
    ensures Tracks(track, a, c)
  {
    var p :| IsWalk(track, p) && p[0] == b && p[|p| - 1] == c;
    var q := [a] + p;
    forall i: nat | i < |q| - 1 ensures Follows(track, q, i) {
      if i > 0 {
        assert Follows(track, p, i - 1);
        assert q[i] == p[i - 1] && q[i + 1] == p[i];
      }
    }
    assert IsWalk(track, q);
  }

  /** Whatever a successor gathers, its predecessor gathers too. */
  lemma GathersPrepend<V(!new)>(track: map<Variable, set<Variable>>, init: map<Variable, set<V>>, a: Variable, b: Variable, x: V)
    requires b in Entry(track, a) && Gathers(track, init, b, x)
    ensures Gathers(track, init, a, x)
  {
    var c :| Tracks(track, b, c) && x in Entry(init, c);
    TracksPrepend(track, a, b, c);
  }

  /** Every node of `s` has all its successors in `s`. */
  ghost predicate Closed(track: map<Variable, set<Variable>>, s: set<Variable>) {
    forall x :: x in s ==> Entry(track, x) <= s
  }

  lemma {:induction false} WalkStaysInClosed(track: map<Variable, set<Variable>>, s: set<Variable>, p: seq<Variable>)
    requires Closed(track, s) && IsWalk(track, p) && p[0] in s
    ensures p[|p| - 1] in s
    decreases |p|
  {
    if |p| > 1 {
      var q := p[..|p| - 1];
      forall i: nat | i < |q| - 1 ensures Follows(track, q, i) {
        assert Follows(track, p, i);
      }
      WalkStaysInClosed(track, s, q);
      var last: nat := |p| - 2;
      assert Follows(track, p, last);
    }
  }

  /** A closed set contains everything reachable from its members. */
  lemma ClosedContainsTracks(track: map<Variable, set<Variable>>, s: set<Variable>, a: Variable, b: Variable)
    requires Closed(track, s) && a in s && Tracks(track, a, b)
    ensures b in s
  {
    var p :| IsWalk(track, p) && p[0] == a && p[|p| - 1] == b;
    WalkStaysInClosed(track, s, p);
  }

  /** A node without track edges reaches only itself. */
  lemma TracksFromSink(track: map<Variable, set<Variable>>, a: Variable, b: Variable)
    requires Entry(track, a) == {} && Tracks(track, a, b)
    ensures b == a
  {
    assert Closed(track, {a});
    ClosedContainsTracks(track, {a}, a, b);
  }

  // ---------------------------------------------------------------------------------------------
  // track_adding

  /** Every node that is the source or the target of a track edge. */
  ghost function Nodes(track: map<Variable, set<Variable>>): set<Variable> {
    track.Keys + (set a, b | a in track && b in track[a] :: b)
  }

  /** Every stored element of `m` is gathered, in `init`, from its key. */
  ghost predicate Sound<V(!new)>(track: map<Variable, set<Variable>>, init: map<Variable, set<V>>, m: map<Variable, set<V>>) {
    forall a, x :: x in Entry(m, a) ==> Gathers(track, init, a, x)
  }

  /** No stored set of `m` has lost an element in `m'`. */
  ghost predicate Grows<V(!new)>(m: map<Variable, set<V>>, m': map<Variable, set<V>>) {
    forall a :: Entry(m, a) <= Entry(m', a)
  }

  lemma JoinedEntry<K, V>(m: map<K, set<V>>, output: K, source: K)
    ensures Entry(Joined(m, output, source), output) == Entry(m, output) + Entry(m, source)
    ensures forall k :: k != output ==> Entry(Joined(m, output, source), k) == Entry(m, k)
  {
  }

  lemma SmallerRemainder<T>(n: set<T>, v: set<T>, v': set<T>, x: T)
    requires v <= v' && x in n && x !in v && x in v'
    ensures |n - v'| < |n - v|
  {
    assert n - v' <= (n - v) - {x};
    assert n - v == (n - v') + ((n - v) - (n - v'));
  }

  /** `track_adding`: a depth-first walk from `current` along track edges that, after visiting each
      successor, joins the successor's set into `current`'s.  It keeps every set gathered from
      `init`, only grows sets, and leaves every newly visited node with all its successors visited
      and its old set inside `current`'s. */
  method TrackAdding<V(!new)>(current: Variable, track: map<Variable, set<Variable>>, visited: set<Variable>,
                        m: MapSet<Variable, V>, ghost init: map<Variable, set<V>>)
    returns (visited': set<Variable>)
    requires Sound(track, init, m.content)
    modifies m
    ensures Sound(track, init, m.content) && Grows(old(m.content), m.content)
    ensures visited <= visited' && current in visited'
    ensures forall x :: x in visited' && x !in visited ==> Entry(track, x) <= visited'
    ensures forall u :: u in visited' && u !in visited ==> Entry(old(m.content), u) <= Entry(m.content, current)
    decreases |Nodes(track) - visited|
  {
    if current in visited {
      return visited;
    }
    visited' := visited + {current};
    var todo := Entry(track, current);
    while todo != {}
      invariant todo <= Entry(track, current)
      invariant visited + {current} <= visited'
      invariant Sound(track, init, m.content) && Grows(old(m.content), m.content)
      invariant forall y :: y in Entry(track, current) && y !in todo ==> y in visited'
      invariant forall x :: x in visited' && x !in visited && x != current ==> Entry(track, x) <= visited'
      invariant forall u :: u in visited' && u !in visited ==> Entry(old(m.content), u) <= Entry(m.content, current)
      decreases todo
    {
      var next :| next in todo;
      todo := todo - {next};
      assert current in Nodes(track) && next in Nodes(track);
      SmallerRemainder(Nodes(track), visited, visited', current);
      ghost var (m0, v0) := (m.content, visited');
      visited' := TrackAdding(next, track, visited', m, init);
      ghost var m1 := m.content;
      m.Join(current, next);
      JoinedEntry(m1, current, next);
      forall a, x | x in Entry(m.content, a) ensures Gathers(track, init, a, x) {
        if a == current && x !in Entry(m1, current) {
          GathersPrepend(track, init, current, next, x);
        }
      }
      forall u | u in visited' && u !in visited ensures Entry(old(m.content), u) <= Entry(m.content, current) {
        if u !in v0 {
          assert Entry(old(m.content), u) <= Entry(m0, u);
        }
      }
    }
  }

  /** Everything gathered from `a` is stored under `a`. */
  ghost predicate Complete<V(!new)>(track: map<Variable, set<Variable>>, init: map<Variable, set<V>>, m: map<Variable, set<V>>, a: Variable) {
    forall x :: Gathers(track, init, a, x) ==> x in Entry(m, a)
  }

  /** A top-level `track_adding` from `v` (with a fresh visited set) completes `v`'s set. */
  lemma CompletedByWalk<V(!new)>(track: map<Variable, set<Variable>>, init: map<Variable, set<V>>,
                                 m0: map<Variable, set<V>>, m: map<Variable, set<V>>, visited: set<Variable>, v: Variable)
    requires Grows(init, m0) && v in visited
    requires forall x :: x in visited ==> Entry(track, x) <= visited
    requires forall u :: u in visited ==> Entry(m0, u) <= Entry(m, v)
    ensures Complete(track, init, m, v)
  {
    forall x | Gathers(track, init, v, x) ensures x in Entry(m, v) {
      var b :| Tracks(track, v, b) && x in Entry(init, b);
      ClosedContainsTracks(track, visited, v, b);
      assert x in Entry(m0, b);
    }
  }

  /** The key loop shared by `First::from_rule` and `Follow::new`: `track_adding` from every source
      of a track edge, each time with a fresh visited set.  Afterwards every set holds exactly
      what is gathered from the sets before the loop. */
  method TrackAll<V(!new)>(track: map<Variable, set<Variable>>, m: MapSet<Variable, V>)
    modifies m
    ensures forall a, x :: x in Entry(m.content, a) <==> Gathers(track, old(m.content), a, x)
  {
    ghost var init := m.content;
    SoundAtStart(track, init);
    var keys := track.Keys;
    while keys != {}
      invariant keys <= track.Keys
      invariant Sound(track, init, m.content) && Grows(init, m.content)
      invariant forall a :: a in track.Keys && a !in keys ==> Complete(track, init, m.content, a)
      decreases keys
    {
      var v :| v in keys;
      keys := keys - {v};
      ghost var m0 := m.content;
      var visited := TrackAdding(v, track, {}, m, init);
      CompletedByWalk(track, init, m0, m.content, visited, v);
      CompleteKept(track, init, m0, m.content, track.Keys - keys - {v});
    }
    CompleteEverywhere(track, init, m.content);
  }

  lemma SoundAtStart<V(!new)>(track: map<Variable, set<Variable>>, init: map<Variable, set<V>>)
    ensures Sound(track, init, init) && Grows(init, init)
  {
    forall a, x | x in Entry(init, a) ensures Gathers(track, init, a, x) {
      TracksRefl(track, a);
    }
  }

  lemma CompleteKept<V(!new)>(track: map<Variable, set<Variable>>, init: map<Variable, set<V>>,
                              m0: map<Variable, set<V>>, m: map<Variable, set<V>>, done: set<Variable>)
    requires Grows(m0, m)
    requires forall a :: a in done ==> Complete(track, init, m0, a)
    ensures forall a :: a in done ==> Complete(track, init, m, a)
  {
    forall a | a in done ensures Complete(track, init, m, a) {
      assert Complete(track, init, m0, a);
      assert Entry(m0, a) <= Entry(m, a);
    }
  }

  /** Once every source of a track edge is complete, every key holds exactly what it gathers. */
  lemma CompleteEverywhere<V(!new)>(track: map<Variable, set<Variable>>, init: map<Variable, set<V>>, m: map<Variable, set<V>>)
    requires Sound(track, init, m) && Grows(init, m)
    requires forall a :: a in track.Keys ==> Complete(track, init, m, a)
    ensures forall a, x :: x in Entry(m, a) <==> Gathers(track, init, a, x)
  {
    forall a, x | Gathers(track, init, a, x) ensures x in Entry(m, a) {
      if a !in track.Keys {
        var b :| Tracks(track, a, b) && x in Entry(init, b);
        TracksFromSink(track, a, b);
      } else {
        assert Complete(track, init, m, a);
      }
    }
  }

  // ---------------------------------------------------------------------------------------------
  // FIRST

  /** `rule` has an output and it starts with `m`. */
  predicate StartsWith(rule: Rule, m: MixedChar) {
    |rule.output| > 0 && rule.output[0] == m
  }

  /** Direct FIRST contributions: `t` under `A` for every rule `A -> t ...`. */
  ghost function LeadingTerminals(rules: seq<Rule>): map<Variable, set<Terminal>> {
    map a | a in TerminalLed(rules) :: TerminalsLeading(rules, a)
  }

  ghost function TerminalLed(rules: seq<Rule>): set<Variable> {
    set r | r in rules && |r.output| > 0 && r.output[0].Term? :: r.clause
  }

  ghost function TerminalsLeading(rules: seq<Rule>, a: Variable): set<Terminal> {
    set r | r in rules && r.clause == a && |r.output| > 0 && r.output[0].Term? :: r.output[0].t
  }

  /** FIRST track edges: `A -> B` for every rule `A -> B ...`. */
  ghost function LeadingVariables(rules: seq<Rule>): map<Variable, set<Variable>> {
    map a | a in VariableLed(rules) :: VariablesLeading(rules, a)
  }

  ghost function VariableLed(rules: seq<Rule>): set<Variable> {
    set r | r in rules && |r.output| > 0 && r.output[0].Var? :: r.clause
  }

  ghost function VariablesLeading(rules: seq<Rule>, a: Variable): set<Variable> {
    set r | r in rules && r.clause == a && |r.output| > 0 && r.output[0].Var? :: r.output[0].v
  }

  /** The variables with an empty rule. */
  ghost function EmptyClauses(rules: seq<Rule>): set<Variable> {
    set r | r in rules && r.output == [] :: r.clause
  }

  lemma TerminalsStep(rules: seq<Rule>, rule: Rule)
    ensures LeadingTerminals(rules + [rule]) ==
      if |rule.output| > 0 && rule.output[0].Term? then Added(LeadingTerminals(rules), rule.clause, rule.output[0].t)
      else LeadingTerminals(rules)
  {
    var s := rules + [rule];
    var lead := |rule.output| > 0 && rule.output[0].Term?;
    TerminalLedStep(rules, rule);
    var a := LeadingTerminals(s);
    var b := if lead then Added(LeadingTerminals(rules), rule.clause, rule.output[0].t) else LeadingTerminals(rules);
    assert a.Keys == b.Keys;
    forall k | k in a ensures a[k] == b[k] {
      TerminalsLeadingStep(rules, rule, k);
    }
  }

  lemma TerminalLedStep(rules: seq<Rule>, rule: Rule)
    ensures TerminalLed(rules + [rule]) == TerminalLed(rules) + (if |rule.output| > 0 && rule.output[0].Term? then {rule.clause} else {})
  {
    assert forall r :: r in rules + [rule] <==> r in rules || r == rule;
  }

  lemma TerminalsLeadingStep(rules: seq<Rule>, rule: Rule, k: Variable)
    ensures TerminalsLeading(rules + [rule], k) == TerminalsLeading(rules, k) +
      (if |rule.output| > 0 && rule.output[0].Term? && k == rule.clause then {rule.output[0].t} else {})
  {
    assert forall r :: r in rules + [rule] <==> r in rules || r == rule;
  }

  lemma VariablesStep(rules: seq<Rule>, rule: Rule)
    ensures LeadingVariables(rules + [rule]) ==
      if |rule.output| > 0 && rule.output[0].Var? then Added(LeadingVariables(rules), rule.clause, rule.output[0].v)
      else LeadingVariables(rules)
  {
    var s := rules + [rule];
    var lead := |rule.output| > 0 && rule.output[0].Var?;
    VariableLedStep(rules, rule);
    var a := LeadingVariables(s);
    var b := if lead then Added(LeadingVariables(rules), rule.clause, rule.output[0].v) else LeadingVariables(rules);
    assert a.Keys == b.Keys;
    forall k | k in a ensures a[k] == b[k] {
      VariablesLeadingStep(rules, rule, k);
    }
  }

  lemma VariableLedStep(rules: seq<Rule>, rule: Rule)
    ensures VariableLed(rules + [rule]) == VariableLed(rules) + (if |rule.output| > 0 && rule.output[0].Var? then {rule.clause} else {})
  {
    assert forall r :: r in rules + [rule] <==> r in rules || r == rule;
  }

  lemma VariablesLeadingStep(rules: seq<Rule>, rule: Rule, k: Variable)
    ensures VariablesLeading(rules + [rule], k) == VariablesLeading(rules, k) +
      (if |rule.output| > 0 && rule.output[0].Var? && k == rule.clause then {rule.output[0].v} else {})
  {
    assert forall r :: r in rules + [rule] <==> r in rules || r == rule;
  }

  lemma EmptyStep(rules: seq<Rule>, rule: Rule)
    ensures EmptyClauses(rules + [rule]) == EmptyClauses(rules) + (if rule.output == [] then {rule.clause} else {})
  {
    var s := rules + [rule];
    assert forall r :: r in s <==> r in rules || r == rule;
  }

  /** The FIRST sets, and the variables with an empty rule. */
  datatype First = First(sets: map<Variable, set<Terminal>>, empty: set<Variable>)

  /** `First::from_rule`: each rule's first symbol is a direct terminal, a track edge or, for an
      empty output, marks the clause as empty; tracking then closes the terminal sets. */
  method FromRule(rules: seq<Rule>) returns (first: First)
    ensures forall a, t :: t in Entry(first.sets, a) <==> Gathers(LeadingVariables(rules), LeadingTerminals(rules), a, t)
    ensures first.empty == EmptyClauses(rules)
  {
    var terminals := new MapSet<Variable, Terminal>();
    var track := new MapSet<Variable, Variable>();
    var empty: set<Variable> := {};
    for i := 0 to |rules|
      invariant terminals.content == LeadingTerminals(rules[..i])
      invariant track.content == LeadingVariables(rules[..i])
      invariant empty == EmptyClauses(rules[..i])
    {
      var rule := rules[i];
      TerminalsStep(rules[..i], rule);
      VariablesStep(rules[..i], rule);
      EmptyStep(rules[..i], rule);
      assert rules[..i + 1] == rules[..i] + [rule];
      if rule.output == [] {
        empty := empty + {rule.clause};
      } else {
        match rule.output[0]
        case Term(t) => terminals.Add(rule.clause, t);
        case Var(v) => track.Add(rule.clause, v);
      }
    }
    assert rules[..|rules|] == rules;
    TrackAll(track.content, terminals);
    first := First(terminals.content, empty);
  }

  /** A rule `A -> t ...` puts `t` in FIRST(A). */
  lemma FirstHasLeadingTerminal(rules: seq<Rule>, rule: Rule)
    requires rule in rules && |rule.output| > 0 && rule.output[0].Term?
    ensures Gathers(LeadingVariables(rules), LeadingTerminals(rules), rule.clause, rule.output[0].t)
  {
    TracksRefl(LeadingVariables(rules), rule.clause);
    assert rule.output[0].t in Entry(LeadingTerminals(rules), rule.clause);
  }

  /** A rule `A -> B ...` puts all of FIRST(B) in FIRST(A). */
  lemma FirstHasLeadingFirst(rules: seq<Rule>, rule: Rule, t: Terminal)
    requires rule in rules && |rule.output| > 0 && rule.output[0].Var?
    requires Gathers(LeadingVariables(rules), LeadingTerminals(rules), rule.output[0].v, t)
    ensures Gathers(LeadingVariables(rules), LeadingTerminals(rules), rule.clause, t)
  {
    assert rule.output[0].v in Entry(LeadingVariables(rules), rule.clause);
    GathersPrepend(LeadingVariables(rules), LeadingTerminals(rules), rule.clause, rule.output[0].v, t);
  }

  // ---------------------------------------------------------------------------------------------
  // FOLLOW

  /** A FOLLOW entry: terminal `terminal` may follow, by rule number `rule`.  The per-variable map
      from rule numbers to terminal sets is kept as the set of these pairs. */
  datatype Tagged = Tagged(rule: nat, terminal: Terminal)

  /** The pairs tagging each terminal of `ts` with rule number `r` (`MapSet::new(r, ts)`). */
  function TagAll(r: nat, ts: set<Terminal>): (e: set<Tagged>)
    ensures forall x :: x in e <==> x.rule == r && x.terminal in ts
  {
    set t | t in ts :: Tagged(r, t)
  }

  /** Position `(r, i)` comes before the reading position `(R, I)`. */
  ghost predicate Before(R: nat, I: nat, r: nat, i: nat) {
    r < R || (r == R && i < I)
  }

  /** After variable `rules[r].output[i]`, FOLLOW of the clause is to be included: the variable is
      last, or the next symbol is a variable with an empty rule. */
  ghost predicate Trailing(rules: seq<Rule>, first: First, r: nat, i: nat)
    requires r < |rules| && i < |rules[r].output|
  {
    i == |rules[r].output| - 1 ||
    (rules[r].output[i + 1].Var? && rules[r].output[i + 1].v in first.empty)
  }

  /** The variable at position `(r, i)` when a symbol follows it: it gets a FOLLOW entry. */
  ghost function KeyAt(rules: seq<Rule>, r: nat, i: nat): set<Variable>
    requires r < |rules| && i < |rules[r].output|
  {
    var out := rules[r].output;
    if i + 1 < |out| && out[i].Var? then {out[i].v} else {}
  }

  /** The direct FOLLOW entries position `(r, i)` gives `v`: the terminal right after `v`, or the
      FIRST terminals of the variable right after `v`, tagged with rule number `r`. */
  ghost function EntriesAt(rules: seq<Rule>, first: First, r: nat, i: nat, v: Variable): set<Tagged>
    requires r < |rules| && i < |rules[r].output|
  {
    var out := rules[r].output;
    if i + 1 < |out| && out[i] == Var(v) then
      match out[i + 1]
      case Term(t) => {Tagged(r, t)}
      case Var(w) => TagAll(r, Entry(first.sets, w))
    else {}
  }

  /** The variable at position `(r, i)` when it has a track edge to its clause. */
  ghost function SourceAt(rules: seq<Rule>, first: First, r: nat, i: nat): set<Variable>
    requires r < |rules| && i < |rules[r].output|
  {
    var out := rules[r].output;
    if out[i].Var? && out[i].v != rules[r].clause && Trailing(rules, first, r, i) then {out[i].v} else {}
  }

  /** The track edge position `(r, i)` gives `v`: to the clause of rule `r`. */
  ghost function TargetsAt(rules: seq<Rule>, first: First, r: nat, i: nat, v: Variable): set<Variable>
    requires r < |rules| && i < |rules[r].output|
  {
    if rules[r].output[i] == Var(v) && v != rules[r].clause && Trailing(rules, first, r, i) then {rules[r].clause} else {}
  }

  ghost function FollowKeys(rules: seq<Rule>, R: nat, I: nat): set<Variable> {
    set r: nat, i: nat, v | r < |rules| && i < |rules[r].output| && Before(R, I, r, i) && v in KeyAt(rules, r, i) :: v
  }

  ghost function FollowEntries(rules: seq<Rule>, first: First, R: nat, I: nat, v: Variable): set<Tagged> {
    set r: nat, i: nat, x | r < |rules| && i < |rules[r].output| && Before(R, I, r, i) && x in EntriesAt(rules, first, r, i, v) :: x
  }

  ghost function TrackSources(rules: seq<Rule>, first: First, R: nat, I: nat): set<Variable> {
    set r: nat, i: nat, v | r < |rules| && i < |rules[r].output| && Before(R, I, r, i) && v in SourceAt(rules, first, r, i) :: v
  }

  ghost function TrackTargets(rules: seq<Rule>, first: First, R: nat, I: nat, v: Variable): set<Variable> {
    set r: nat, i: nat, c | r < |rules| && i < |rules[r].output| && Before(R, I, r, i) && c in TargetsAt(rules, first, r, i, v) :: c
  }

  /** The direct FOLLOW entries of the positions before `(R, I)`. */
  ghost function FollowBaseUpTo(rules: seq<Rule>, first: First, R: nat, I: nat): map<Variable, set<Tagged>> {
    map v | v in FollowKeys(rules, R, I) :: FollowEntries(rules, first, R, I, v)
  }

  /** The FOLLOW track edges of the positions before `(R, I)`. */
  ghost function FollowTrackUpTo(rules: seq<Rule>, first: First, R: nat, I: nat): map<Variable, set<Variable>> {
    map v | v in TrackSources(rules, first, R, I) :: TrackTargets(rules, first, R, I, v)
  }

  /** The direct FOLLOW entries of all the rules. */
  ghost function FollowBase(rules: seq<Rule>, first: First): map<Variable, set<Tagged>> {
    FollowBaseUpTo(rules, first, |rules|, 0)
  }

  /** The FOLLOW track edges of all the rules: `V -> A` when a rule of `A` ends in `V`, or has `V`
      followed by a variable with an empty rule, and `V` is not `A`. */
  ghost function FollowTrack(rules: seq<Rule>, first: First): map<Variable, set<Variable>> {
    FollowTrackUpTo(rules, first, |rules|, 0)
  }

  lemma FollowKeysStep(rules: seq<Rule>, R: nat, I: nat)
    requires R < |rules| && I < |rules[R].output|
    ensures FollowKeys(rules, R, I + 1) == FollowKeys(rules, R, I) + KeyAt(rules, R, I)
  {
    var a := FollowKeys(rules, R, I + 1);
    forall x | x in a ensures x in FollowKeys(rules, R, I) + KeyAt(rules, R, I) {
      var r: nat, i: nat :| r < |rules| && i < |rules[r].output| && Before(R, I + 1, r, i) && x in KeyAt(rules, r, i);
      if !(r == R && i == I) {
        assert Before(R, I, r, i);
      }
    }
    forall x | x in KeyAt(rules, R, I) ensures x in a {
      assert Before(R, I + 1, R, I);
    }
  }

  lemma FollowEntriesStep(rules: seq<Rule>, first: First, R: nat, I: nat, v: Variable)
    requires R < |rules| && I < |rules[R].output|
    ensures FollowEntries(rules, first, R, I + 1, v) == FollowEntries(rules, first, R, I, v) + EntriesAt(rules, first, R, I, v)
  {
    var a := FollowEntries(rules, first, R, I + 1, v);
    forall x | x in a ensures x in FollowEntries(rules, first, R, I, v) + EntriesAt(rules, first, R, I, v) {
      var r: nat, i: nat :| r < |rules| && i < |rules[r].output| && Before(R, I + 1, r, i) && x in EntriesAt(rules, first, r, i, v);
      if !(r == R && i == I) {
        assert Before(R, I, r, i);
      }
    }
    forall x | x in EntriesAt(rules, first, R, I, v) ensures x in a {
      assert Before(R, I + 1, R, I);
    }
  }

  lemma TrackSourcesStep(rules: seq<Rule>, first: First, R: nat, I: nat)
    requires R < |rules| && I < |rules[R].output|
    ensures TrackSources(rules, first, R, I + 1) == TrackSources(rules, first, R, I) + SourceAt(rules, first, R, I)
  {
    var a := TrackSources(rules, first, R, I + 1);
    forall x | x in a ensures x in TrackSources(rules, first, R, I) + SourceAt(rules, first, R, I) {
      var r: nat, i: nat :| r < |rules| && i < |rules[r].output| && Before(R, I + 1, r, i) && x in SourceAt(rules, first, r, i);
      if !(r == R && i == I) {
        assert Before(R, I, r, i);
      }
    }
    forall x | x in SourceAt(rules, first, R, I) ensures x in a {
      assert Before(R, I + 1, R, I);
    }
  }

  lemma TrackTargetsStep(rules: seq<Rule>, first: First, R: nat, I: nat, v: Variable)
    requires R < |rules| && I < |rules[R].output|
    ensures TrackTargets(rules, first, R, I + 1, v) == TrackTargets(rules, first, R, I, v) + TargetsAt(rules, first, R, I, v)
  {
    var a := TrackTargets(rules, first, R, I + 1, v);
    forall x | x in a ensures x in TrackTargets(rules, first, R, I, v) + TargetsAt(rules, first, R, I, v) {
      var r: nat, i: nat :| r < |rules| && i < |rules[r].output| && Before(R, I + 1, r, i) && x in TargetsAt(rules, first, r, i, v);
      if !(r == R && i == I) {
        assert Before(R, I, r, i);
      }
    }
    forall x | x in TargetsAt(rules, first, R, I, v) ensures x in a {
      assert Before(R, I + 1, R, I);
    }
  }

  /** Reading position `(R, I)` of the FOLLOW loop: a variable followed by a terminal adds that
      terminal, a variable followed by a variable appends that variable's FIRST set. */
  lemma FollowBaseStep(rules: seq<Rule>, first: First, R: nat, I: nat)
    requires R < |rules| && I < |rules[R].output|
    ensures var out := rules[R].output;
      var base := FollowBaseUpTo(rules, first, R, I);
      FollowBaseUpTo(rules, first, R, I + 1) ==
        if I + 1 < |out| && out[I].Var? then Appended(base, out[I].v, EntriesAt(rules, first, R, I, out[I].v))
        else base
  {
    var out := rules[R].output;
    FollowKeysStep(rules, R, I);
    if I + 1 < |out| && out[I].Var? {
      FollowBaseAppended(rules, first, R, I);
    } else {
      FollowBaseSame(rules, first, R, I);
    }
  }

  lemma FollowBaseAppended(rules: seq<Rule>, first: First, R: nat, I: nat)
    requires R < |rules| && I + 1 < |rules[R].output| && rules[R].output[I].Var?
    requires FollowKeys(rules, R, I + 1) == FollowKeys(rules, R, I) + {rules[R].output[I].v}
    ensures FollowBaseUpTo(rules, first, R, I + 1) ==
      Appended(FollowBaseUpTo(rules, first, R, I), rules[R].output[I].v, EntriesAt(rules, first, R, I, rules[R].output[I].v))
  {
    var v := rules[R].output[I].v;
    var a := FollowBaseUpTo(rules, first, R, I + 1);
    var b := Appended(FollowBaseUpTo(rules, first, R, I), v, EntriesAt(rules, first, R, I, v));
    forall k | k in a ensures a[k] == b[k] {
      FollowEntriesStep(rules, first, R, I, k);
      if k == v {
        EntriesKeyed(rules, first, R, I, k);
      } else {
        assert EntriesAt(rules, first, R, I, k) == {};
      }
    }
  }

  lemma FollowBaseSame(rules: seq<Rule>, first: First, R: nat, I: nat)
    requires R < |rules| && I < |rules[R].output| && !(I + 1 < |rules[R].output| && rules[R].output[I].Var?)
    requires FollowKeys(rules, R, I + 1) == FollowKeys(rules, R, I)
    ensures FollowBaseUpTo(rules, first, R, I + 1) == FollowBaseUpTo(rules, first, R, I)
  {
    var a := FollowBaseUpTo(rules, first, R, I + 1);
    var b := FollowBaseUpTo(rules, first, R, I);
    forall k | k in a ensures a[k] == b[k] {
      FollowEntriesStep(rules, first, R, I, k);
      assert EntriesAt(rules, first, R, I, k) == {};
    }
  }

  /** Reading position `(R, I)` of the FOLLOW loop: a variable that ends the rule, or is followed by
      a variable with an empty rule, gets a track edge to the clause unless it is the clause. */
  lemma FollowTrackStep(rules: seq<Rule>, first: First, R: nat, I: nat)
    requires R < |rules| && I < |rules[R].output|
    ensures var out := rules[R].output;
      var track := FollowTrackUpTo(rules, first, R, I);
      FollowTrackUpTo(rules, first, R, I + 1) ==
        if out[I].Var? && out[I].v != rules[R].clause && Trailing(rules, first, R, I) then Added(track, out[I].v, rules[R].clause)
        else track
  {
    var out := rules[R].output;
    TrackSourcesStep(rules, first, R, I);
    if out[I].Var? && out[I].v != rules[R].clause && Trailing(rules, first, R, I) {
      FollowTrackAdded(rules, first, R, I);
    } else {
      FollowTrackSame(rules, first, R, I);
    }
  }

  lemma FollowTrackAdded(rules: seq<Rule>, first: First, R: nat, I: nat)
    requires R < |rules| && I < |rules[R].output|
    requires rules[R].output[I].Var? && rules[R].output[I].v != rules[R].clause && Trailing(rules, first, R, I)
    requires TrackSources(rules, first, R, I + 1) == TrackSources(rules, first, R, I) + {rules[R].output[I].v}
    ensures FollowTrackUpTo(rules, first, R, I + 1) ==
      Appended(FollowTrackUpTo(rules, first, R, I), rules[R].output[I].v, {rules[R].clause})
  {
    var v := rules[R].output[I].v;
    var a := FollowTrackUpTo(rules, first, R, I + 1);
    var b := Appended(FollowTrackUpTo(rules, first, R, I), v, {rules[R].clause});
    assert TargetsAt(rules, first, R, I, v) == {rules[R].clause};
    forall k | k in a ensures a[k] == b[k] {
      TrackTargetsStep(rules, first, R, I, k);
      if k == v {
        TargetsSourced(rules, first, R, I, k);
      } else {
        assert TargetsAt(rules, first, R, I, k) == {};
      }
    }
  }

  lemma FollowTrackSame(rules: seq<Rule>, first: First, R: nat, I: nat)
    requires R < |rules| && I < |rules[R].output|
    requires !(rules[R].output[I].Var? && rules[R].output[I].v != rules[R].clause && Trailing(rules, first, R, I))
    requires TrackSources(rules, first, R, I + 1) == TrackSources(rules, first, R, I)
    ensures FollowTrackUpTo(rules, first, R, I + 1) == FollowTrackUpTo(rules, first, R, I)
  {
    var a := FollowTrackUpTo(rules, first, R, I + 1);
    var b := FollowTrackUpTo(rules, first, R, I);
    forall k | k in a ensures a[k] == b[k] {
      TrackTargetsStep(rules, first, R, I, k);
      assert TargetsAt(rules, first, R, I, k) == {};
    }
  }

  lemma EntriesKeyed(rules: seq<Rule>, first: First, R: nat, I: nat, v: Variable)
    ensures v !in FollowKeys(rules, R, I) ==> FollowEntries(rules, first, R, I, v) == {}
  {
    forall x | x in FollowEntries(rules, first, R, I, v) ensures v in FollowKeys(rules, R, I) {
      var r: nat, i: nat :| r < |rules| && i < |rules[r].output| && Before(R, I, r, i) && x in EntriesAt(rules, first, r, i, v);
      assert v in KeyAt(rules, r, i);
    }
  }

  lemma TargetsSourced(rules: seq<Rule>, first: First, R: nat, I: nat, v: Variable)
    ensures v !in TrackSources(rules, first, R, I) ==> TrackTargets(rules, first, R, I, v) == {}
  {
    forall x | x in TrackTargets(rules, first, R, I, v) ensures v in TrackSources(rules, first, R, I) {
      var r: nat, i: nat :| r < |rules| && i < |rules[r].output| && Before(R, I, r, i) && x in TargetsAt(rules, first, r, i, v);
      assert v in SourceAt(rules, first, r, i);
    }
  }

  /** Having read all of rule `R` is having read up to the start of rule `R + 1`. */
  lemma FollowRuleDone(rules: seq<Rule>, first: First, R: nat)
    requires R < |rules|
    ensures FollowBaseUpTo(rules, first, R, |rules[R].output|) == FollowBaseUpTo(rules, first, R + 1, 0)
    ensures FollowTrackUpTo(rules, first, R, |rules[R].output|) == FollowTrackUpTo(rules, first, R + 1, 0)
  {
    var n := |rules[R].output|;
    assert forall r: nat, i: nat {:trigger Before(R, n, r, i)} {:trigger Before(R + 1, 0, r, i)} |
      r < |rules| && i < |rules[r].output| :: Before(R, n, r, i) <==> Before(R + 1, 0, r, i);
    assert FollowKeys(rules, R, n) == FollowKeys(rules, R + 1, 0);
    assert TrackSources(rules, first, R, n) == TrackSources(rules, first, R + 1, 0);
    forall v ensures FollowEntries(rules, first, R, n, v) == FollowEntries(rules, first, R + 1, 0, v) {
    }
    forall v ensures TrackTargets(rules, first, R, n, v) == TrackTargets(rules, first, R + 1, 0, v) {
    }
  }

  lemma FollowStart(rules: seq<Rule>, first: First)
    ensures FollowBaseUpTo(rules, first, 0, 0) == map[]
    ensures FollowTrackUpTo(rules, first, 0, 0) == map[]
  {
    assert FollowKeys(rules, 0, 0) == {};
    assert TrackSources(rules, first, 0, 0) == {};
  }

  /** The FOLLOW sets: for each variable, the terminals that may follow it, each tagged with the rule
      that brought it in. */
  datatype Follow = Follow(sets: map<Variable, set<Tagged>>) {
    /** `Follow::get`: every terminal that may follow `key`, whatever the rule. */
    function Get(key: Variable): (r: set<Terminal>)
      ensures forall t :: t in r <==> exists n: nat :: Tagged(n, t) in Entry(sets, key)
    {
      set e | e in Entry(sets, key) :: e.terminal
    }

    /** `Follow::get_filtered`: the terminals that may follow `key` by one of the `allowed` rules. */
    function GetFiltered(key: Variable, allowed: set<nat>): (r: set<Terminal>)
      ensures forall t :: t in r <==> exists n: nat :: n in allowed && Tagged(n, t) in Entry(sets, key)
    {
      set e | e in Entry(sets, key) && e.rule in allowed :: e.terminal
    }
  }

  /** One pass of the FOLLOW loop over rule `r`: each variable followed by a symbol takes that
      terminal, or that variable's FIRST set, tagged with `r`; a variable that ends the rule, or is
      followed by a variable with an empty rule, gets a track edge to the clause. */
  method FollowRule(first: First, rules: seq<Rule>, r: nat, m: MapSet<Variable, Tagged>, track: MapSet<Variable, Variable>)
    requires r < |rules|
    requires m.content == FollowBaseUpTo(rules, first, r, 0) && track.content == FollowTrackUpTo(rules, first, r, 0)
    modifies m, track
    ensures m.content == FollowBaseUpTo(rules, first, r + 1, 0) && track.content == FollowTrackUpTo(rules, first, r + 1, 0)
  {
    var rule := rules[r];
    var clause := rule.clause;
    var i := 0;
    while i < |rule.output|
      invariant i <= |rule.output|
      invariant m.content == FollowBaseUpTo(rules, first, r, i)
      invariant track.content == FollowTrackUpTo(rules, first, r, i)
    {
      FollowBaseStep(rules, first, r, i);
      FollowTrackStep(rules, first, r, i);
      if rule.output[i].Var? {
        var variable := rule.output[i].v;
        if i + 1 == |rule.output| {
          if variable != clause {
            track.Add(variable, clause);
          }
          i := i + 1;
          break;
        }
        match rule.output[i + 1]
        case Term(t) =>
          assert EntriesAt(rules, first, r, i, variable) == {Tagged(r, t)};
          AddedIsAppended(m.content, variable, Tagged(r, t));
          m.Add(variable, Tagged(r, t));
        case Var(w) =>
          if w in first.empty && variable != clause {
            track.Add(variable, clause);
          }
          assert EntriesAt(rules, first, r, i, variable) == TagAll(r, Entry(first.sets, w));
          m.Append(variable, TagAll(r, Entry(first.sets, w)));
      }
      i := i + 1;
    }
    FollowRuleDone(rules, first, r);
  }

  /** `Follow::new`: the direct entries and track edges of every rule, then tracking closes the sets. */
  method NewFollow(first: First, rules: seq<Rule>) returns (follow: Follow)
    ensures forall v, e :: e in Entry(follow.sets, v) <==> Gathers(FollowTrack(rules, first), FollowBase(rules, first), v, e)
  {
    var track := new MapSet<Variable, Variable>();
    var m := new MapSet<Variable, Tagged>();
    FollowStart(rules, first);
    for r := 0 to |rules|
      invariant m.content == FollowBaseUpTo(rules, first, r, 0)
      invariant track.content == FollowTrackUpTo(rules, first, r, 0)
    {
      FollowRule(first, rules, r, m, track);
    }
    TrackAll(track.content, m);
    follow := Follow(m.content);
  }

  /** What position `(r, i)` contributes directly is in the FOLLOW base. */
  lemma BaseHasEntriesAt(rules: seq<Rule>, first: First, r: nat, i: nat, v: Variable)
    requires r < |rules| && i < |rules[r].output|
    ensures EntriesAt(rules, first, r, i, v) <= Entry(FollowBase(rules, first), v)
  {
    forall x | x in EntriesAt(rules, first, r, i, v) ensures x in Entry(FollowBase(rules, first), v) {
      assert Before(|rules|, 0, r, i);
      assert v in KeyAt(rules, r, i);
      assert v in FollowKeys(rules, |rules|, 0);
      assert x in FollowEntries(rules, first, |rules|, 0, v);
    }
  }

  /** A terminal right after variable `v` in rule `r` follows `v`, by rule `r`. */
  lemma FollowHasNextTerminal(rules: seq<Rule>, first: First, r: nat, i: nat, v: Variable, t: Terminal)
    requires r < |rules| && i + 1 < |rules[r].output|
    requires rules[r].output[i] == Var(v) && rules[r].output[i + 1] == Term(t)
    ensures Gathers(FollowTrack(rules, first), FollowBase(rules, first), v, Tagged(r, t))
  {
    BaseHasEntriesAt(rules, first, r, i, v);
    assert Tagged(r, t) in EntriesAt(rules, first, r, i, v);
    TracksRefl(FollowTrack(rules, first), v);
  }

  /** The FIRST terminals of the variable right after variable `v` in rule `r` follow `v`, by rule `r`. */
  lemma FollowHasNextFirst(rules: seq<Rule>, first: First, r: nat, i: nat, v: Variable, w: Variable, t: Terminal)
    requires r < |rules| && i + 1 < |rules[r].output|
    requires rules[r].output[i] == Var(v) && rules[r].output[i + 1] == Var(w) && t in Entry(first.sets, w)
    ensures Gathers(FollowTrack(rules, first), FollowBase(rules, first), v, Tagged(r, t))
  {
    BaseHasEntriesAt(rules, first, r, i, v);
    assert Tagged(r, t) in EntriesAt(rules, first, r, i, v);
    TracksRefl(FollowTrack(rules, first), v);
  }

  /** A variable that ends rule `r`, or is followed there by a variable with an empty rule, takes in
      everything that follows the clause, unless it is the clause itself. */
  lemma FollowHasClauseFollow(rules: seq<Rule>, first: First, r: nat, i: nat, v: Variable, e: Tagged)
    requires r < |rules| && i < |rules[r].output| && rules[r].output[i] == Var(v) && v != rules[r].clause
    requires Trailing(rules, first, r, i)
    requires Gathers(FollowTrack(rules, first), FollowBase(rules, first), rules[r].clause, e)
    ensures Gathers(FollowTrack(rules, first), FollowBase(rules, first), v, e)
  {
    var c := rules[r].clause;
    var track := FollowTrack(rules, first);
    assert Before(|rules|, 0, r, i);
    assert v in SourceAt(rules, first, r, i) && c in TargetsAt(rules, first, r, i, v);
    assert v in TrackSources(rules, first, |rules|, 0);
    assert c in TrackTargets(rules, first, |rules|, 0, v);
    GathersPrepend(track, FollowBase(rules, first), v, c, e);
  }

  /** Filtering by rule only ever narrows `get`; filtering by every rule that appears is `get`. */
  lemma GetFilteredWithinGet(follow: Follow, key: Variable, allowed: set<nat>)
    ensures follow.GetFiltered(key, allowed) <= follow.Get(key)
    ensures (forall e :: e in Entry(follow.sets, key) ==> e.rule in allowed) ==> follow.GetFiltered(key, allowed) == follow.Get(key)
  {
  }
}
