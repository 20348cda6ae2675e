/** The oldest ACTION/GOTO table (src/parsingtable.rs), built from the `Vec`-based item sets of
    src/itemset.rs.  A state's edges are found by comparing it with every set through `is_previous`,
    its reduce entry is the clause and dot of its first end item, and `next` reduces before it looks
    at the input at all.  The `Action`, `State` and `StateMachine` shapes and `reduce_state` are
    those of `Tables`, with a `(clause, count)` pair as the reduce entry. */
module OldParsingtable {
  import opened Wrappers
  import opened Syntax
  import opened Tables
  import OI = OldItemset

  /** `is_previous` can be asked of `s` against every set of `sets` without a panic. */
  ghost predicate Linkable(rules: seq<Rule>, s: OI.ItemSet, sets: seq<OI.ItemSet>) {
    && OI.Numbered(rules, s.items)
    && forall j {:trigger OI.SafeLinks(rules, s, sets[j])} :: 0 <= j < |sets| ==> OI.SafeLinks(rules, s, sets[j])
  }

  /** Every set of a well-formed sequence can be compared with every set of it. */
  lemma LinkableWhenOk(rules: seq<Rule>, sets: seq<OI.ItemSet>, i: nat)
    requires OI.AllOk(rules, sets) && i < |sets|
    ensures Linkable(rules, sets[i], sets)
  {
    forall j | 0 <= j < |sets| ensures OI.SafeLinks(rules, sets[i], sets[j]) {
      OI.SafeWhenOk(rules, sets[i], sets[j]);
    }
  }

  /** What `is_previous` says of `s` against `sets[0 .. k]`, in order. */
  function LinksUpTo(sets: seq<OI.ItemSet>, rules: seq<Rule>, s: OI.ItemSet, k: nat): (r: seq<Option<MixedChar>>)
    requires k <= |sets| && Linkable(rules, s, sets)
    ensures |r| == k
    ensures forall j :: 0 <= j < k ==> r[j] == OI.Previous(s, rules, sets[j])
  {
    if k == 0 then [] else LinksUpTo(sets, rules, s, k - 1) + [OI.Previous(s, rules, sets[k - 1])]
  }

  /** The map that inserting `(c, j)` for every `links[j] == Some(c)` with `j < k`, in order of `j`,
      leaves: an entry on `c` exactly when one of those links is labelled `c`, to the last such
      index, since a later insert overwrites an earlier one. */
  function LastEdges(links: seq<Option<MixedChar>>, k: nat): (r: map<MixedChar, nat>)
    requires k <= |links|
    ensures forall c :: c in r <==> exists j :: 0 <= j < k && links[j] == Some(c)
    ensures forall c :: c in r ==> r[c] < k && links[r[c]] == Some(c)
    ensures forall c, j :: c in r && r[c] < j < k ==> links[j] != Some(c)
  {
    if k == 0 then map[]
    else
      var rest := LastEdges(links, k - 1);
      match links[k - 1]
      case Some(c) => rest[c := k - 1]
      case None => rest
  }

  /** The edges of state `s` after the inner loop of `from_itemset` has compared it with every set. */
  function EdgesOf(sets: seq<OI.ItemSet>, rules: seq<Rule>, s: OI.ItemSet): (r: map<MixedChar, nat>)
    requires Linkable(rules, s, sets)
    ensures forall c :: c in r <==> exists j :: 0 <= j < |sets| && OI.Previous(s, rules, sets[j]) == Some(c)
    ensures forall c :: c in r ==> r[c] < |sets| && OI.Previous(s, rules, sets[r[c]]) == Some(c)
    ensures forall c, j :: c in r && r[c] < j < |sets| ==> OI.Previous(s, rules, sets[j]) != Some(c)
  {
    LastEdges(LinksUpTo(sets, rules, s, |sets|), |sets|)
  }

  /** The inner loop of `from_itemset` for state `s`: `is_previous` against every set in turn. */
  method LinksOf(sets: seq<OI.ItemSet>, rules: seq<Rule>, s: OI.ItemSet) returns (next: map<MixedChar, nat>)
    requires Linkable(rules, s, sets)
    ensures next == EdgesOf(sets, rules, s)
  {
    next := map[];
    for id2 := 0 to |sets|
      invariant next == LastEdges(LinksUpTo(sets, rules, s, |sets|), id2)
    {
      next := LinkTo(sets, rules, s, id2, next);
    }
  }

  /** One pass of that loop: the edge `is_previous` finds to set `id2`, if any, inserted. */
  method LinkTo(sets: seq<OI.ItemSet>, rules: seq<Rule>, s: OI.ItemSet, id2: nat, next: map<MixedChar, nat>)
    returns (next': map<MixedChar, nat>)
    requires Linkable(rules, s, sets) && id2 < |sets|
    requires next == LastEdges(LinksUpTo(sets, rules, s, |sets|), id2)
    ensures next' == LastEdges(LinksUpTo(sets, rules, s, |sets|), id2 + 1)
  {
    var shift := OI.IsPrevious(s, rules, sets[id2]);
    next' := if shift.Some? then next[shift.value := id2] else next;
  }

  /** The reduce entry of a state: the clause of its first end item and the number of symbols to
      pop, which is that item's dot and so the length of its rule; nothing when no item is at its
      end. */
  function ReduceEntry(s: OI.ItemSet, rules: seq<Rule>): (r: Option<(Variable, nat)>)
    requires OI.Numbered(rules, s.items)
    ensures r.None? <==> forall k :: 0 <= k < |s.items| ==> !OI.IsEnd(rules, s.items[k])
    ensures r.Some? ==> exists k :: (0 <= k < |s.items| && OI.IsEnd(rules, s.items[k]) &&
      (forall l :: 0 <= l < k ==> !OI.IsEnd(rules, s.items[l])) &&
      r.value == (rules[s.items[k].ruleNumber].clause, Len(rules[s.items[k].ruleNumber])))
  {
    match OI.ReduceOf(s, rules)
    case None => None
    case Some((dot, variable)) => Some((variable, dot))
  }

  /** `from_itemset`: one state per item set; the edges of state `id1` are those `is_previous`
      finds against every set, the last target winning; then each state gets the reduce entry of
      its set. */
  method FromItemset(sets: seq<OI.ItemSet>, rules: seq<Rule>) returns (m: StateMachine<Option<(Variable, nat)>>)
    requires OI.AllOk(rules, sets)
    ensures |m.states| == |sets|
    ensures forall i :: 0 <= i < |sets| ==> Linkable(rules, sets[i], sets)
    ensures forall i :: 0 <= i < |sets| ==> m.states[i].next == EdgesOf(sets, rules, sets[i])
    ensures forall i :: 0 <= i < |sets| ==> m.states[i].reduce == ReduceEntry(sets[i], rules)
  {
    var states := AllEdges(sets, rules);
    states := AllReduces(sets, rules, states);
    m := StateMachine(states);
  }

  /** The first double loop of `from_itemset`: `vec![State::new(); len]`, then the edges of every
      state. */
  method AllEdges(sets: seq<OI.ItemSet>, rules: seq<Rule>) returns (states: seq<State<Option<(Variable, nat)>>>)
    requires OI.AllOk(rules, sets)
    ensures |states| == |sets|
    ensures forall i :: 0 <= i < |sets| ==> Linkable(rules, sets[i], sets)
    ensures forall i :: 0 <= i < |sets| ==> states[i].next == EdgesOf(sets, rules, sets[i])
    ensures forall i :: 0 <= i < |sets| ==> states[i].reduce == None
  {
    states := seq(|sets|, _ => State(map[], None));
    for id1 := 0 to |sets|
      invariant |states| == |sets|
      invariant forall i :: 0 <= i < id1 ==> Linkable(rules, sets[i], sets)
      invariant forall i :: 0 <= i < id1 ==> states[i].next == EdgesOf(sets, rules, sets[i])
      invariant forall i :: 0 <= i < |sets| ==> states[i].reduce == None
    {
      LinkableWhenOk(rules, sets, id1);
      var next := LinksOf(sets, rules, sets[id1]);
      states := states[id1 := states[id1].(next := next)];
    }
  }

  /** The last loop of `from_itemset`: the reduce entry of every state, its edges left alone. */
  method AllReduces(sets: seq<OI.ItemSet>, rules: seq<Rule>, states: seq<State<Option<(Variable, nat)>>>)
    returns (states': seq<State<Option<(Variable, nat)>>>)
    requires OI.AllOk(rules, sets) && |states| == |sets|
    requires forall i :: 0 <= i < |sets| ==> states[i].reduce == None
    ensures |states'| == |sets|
    ensures forall i :: 0 <= i < |sets| ==> states'[i].next == states[i].next
    ensures forall i :: 0 <= i < |sets| ==> states'[i].reduce == ReduceEntry(sets[i], rules)
  {
    states' := states;
    for id := 0 to |sets|
      invariant |states'| == |sets|
      invariant forall i :: 0 <= i < |sets| ==> states'[i].next == states[i].next
      invariant forall i :: 0 <= i < id ==> states'[i].reduce == ReduceEntry(sets[i], rules)
      invariant forall i :: id <= i < |sets| ==> states'[i].reduce == None
    {
      var r := OI.Reduce(sets[id], rules);
      var entry := if r.Some? then Some((r.value.1, r.value.0)) else states'[id].reduce;
      states' := states'[id := states'[id].(reduce := entry)];
    }
  }

  /** `next`: a state with a reduce entry accepts (for the end clause) or reduces, whatever the
      input; otherwise a missing input or one with no terminal edge is rejected, and one with an
      edge is shifted along it. */
  function Next(m: StateMachine<Option<(Variable, nat)>>, index: nat, rest: Option<Terminal>): (a: Action)
    requires index < |m.states|
    ensures m.states[index].reduce.Some? ==>
      (a == Accept <==> m.states[index].reduce.value.0.symbol == END_VARIABLE) &&
      (a != Accept ==> a == Reduce(m.states[index].reduce.value.0, m.states[index].reduce.value.1))
    ensures a.Shift? <==> m.states[index].reduce.None? && rest.Some? && Term(rest.value) in m.states[index].next
    ensures a.Shift? ==> a.target == m.states[index].next[Term(rest.value)]
    ensures a == Reject <==> m.states[index].reduce.None? && (rest.None? || Term(rest.value) !in m.states[index].next)
  {
    var st := m.states[index];
    match st.reduce
    case Some((reduceval, count)) =>
      if reduceval.symbol == END_VARIABLE then Accept else Reduce(reduceval, count)
    case None =>
      if rest.None? then Reject
      else if Term(rest.value) !in st.next then Reject
      else Shift(st.next[Term(rest.value)])
  }

  /** A state with a reduce entry does the same for every input and never shifts, even on a
      terminal it has an edge for: reducing takes precedence over shifting. */
  lemma ReduceFirst(m: StateMachine<Option<(Variable, nat)>>, index: nat, rest: Option<Terminal>, other: Option<Terminal>)
    requires index < |m.states| && m.states[index].reduce.Some?
    ensures Next(m, index, rest) == Next(m, index, other)
    ensures !Next(m, index, rest).Shift? && Next(m, index, rest) != Reject
  {
  }

  /** Every target of the machine `from_itemset` builds is one of its states; with at least one set,
      state 0 exists as well, so `reduce_state`'s fallback is a state too. */
  lemma TargetsAreStates(sets: seq<OI.ItemSet>, rules: seq<Rule>, m: StateMachine<Option<(Variable, nat)>>)
    requires |m.states| == |sets|
    requires forall i :: 0 <= i < |sets| ==> Linkable(rules, sets[i], sets)
    requires forall i :: 0 <= i < |sets| ==> m.states[i].next == EdgesOf(sets, rules, sets[i])
    ensures forall i, c :: 0 <= i < |m.states| && c in m.states[i].next ==> m.states[i].next[c] < |m.states|
    ensures forall i, v :: 0 <= i < |m.states| && 0 < |sets| ==> ReduceState(m, i, v) < |m.states|
  {
  }

  /** A state of the machine `from_itemset` builds, compared with the item sets it was built from. */
  ghost predicate BuiltFrom(sets: seq<OI.ItemSet>, rules: seq<Rule>, m: StateMachine<Option<(Variable, nat)>>, index: nat) {
    && |m.states| == |sets| && index < |sets|
    && Linkable(rules, sets[index], sets)
    && m.states[index].next == EdgesOf(sets, rules, sets[index])
    && m.states[index].reduce == ReduceEntry(sets[index], rules)
  }

  /** In such a state `next` accepts or reduces exactly when the set has an end item, and then by
      the clause and rule length of the first one. */
  lemma NextReduces(sets: seq<OI.ItemSet>, rules: seq<Rule>, m: StateMachine<Option<(Variable, nat)>>,
                    index: nat, rest: Option<Terminal>)
    requires BuiltFrom(sets, rules, m, index)
    ensures (Next(m, index, rest).Accept? || Next(m, index, rest).Reduce?) <==>
      exists k :: 0 <= k < |sets[index].items| && OI.IsEnd(rules, sets[index].items[k])
    ensures Next(m, index, rest).Reduce? ==> exists k :: (0 <= k < |sets[index].items| &&
      OI.IsEnd(rules, sets[index].items[k]) && (forall l :: 0 <= l < k ==> !OI.IsEnd(rules, sets[index].items[l])) &&
      Next(m, index, rest) == Reduce(rules[sets[index].items[k].ruleNumber].clause, Len(rules[sets[index].items[k].ruleNumber])))
  {
  }

  /** In such a state `next` shifts on `t` exactly when the set has no end item, and then to the
      last set that follows it on `t`. */
  lemma NextShifts(sets: seq<OI.ItemSet>, rules: seq<Rule>, m: StateMachine<Option<(Variable, nat)>>,
                   index: nat, rest: Option<Terminal>, j: nat)
    requires BuiltFrom(sets, rules, m, index)
    ensures Next(m, index, rest) == Shift(j) <==>
      && ReduceEntry(sets[index], rules).None? && rest.Some? && j < |sets|
      && OI.Previous(sets[index], rules, sets[j]) == Some(Term(rest.value))
      && forall j' :: j < j' < |sets| ==> OI.Previous(sets[index], rules, sets[j']) != Some(Term(rest.value))
  {
    var s, n := sets[index], |sets|;
    var next := m.states[index].next;
    if ReduceEntry(s, rules).None? && rest.Some? && j < n && OI.Previous(s, rules, sets[j]) == Some(Term(rest.value)) &&
       (forall j' :: j < j' < n ==> OI.Previous(s, rules, sets[j']) != Some(Term(rest.value))) {
      var c := Term(rest.value);
      assert c in next;
      assert next[c] == j;
    }
  }

  /** In such a state `next` rejects exactly when the set has no end item and either there is no
      input or no set follows it on the input terminal. */
  lemma NextRejects(sets: seq<OI.ItemSet>, rules: seq<Rule>, m: StateMachine<Option<(Variable, nat)>>,
                    index: nat, rest: Option<Terminal>)
    requires BuiltFrom(sets, rules, m, index)
    ensures Next(m, index, rest) == Reject <==> (ReduceEntry(sets[index], rules).None? &&
      (rest.None? || forall j :: 0 <= j < |sets| ==> OI.Previous(sets[index], rules, sets[j]) != Some(Term(rest.value))))
  {
  }
}
