/** The LR(0) ACTION/GOTO table (src/parsing_table/lr_zero.rs): the edges as in
    src/parsing_table/mod.rs, and at most one rule to reduce by per state — the first end item's
    rule, whatever the lookahead. */
module TableLrZero {
  import opened Wrappers
  import opened Syntax
  import opened Worklist
  import opened Tables
  import Orders
  import NL = ItemNoLookahead
  import LrZero

  /** `reduce` is empty exactly when there is no item in `items`, and otherwise the rule of an item
      whose rule number is the least among them. */
  ghost predicate FirstEnd(rules: seq<Rule>, items: set<NL.Item>, reduce: Option<Rule>)
    requires forall e :: e in items ==> e.ruleNumber < |rules|
  {
    && (reduce.None? <==> items == {})
    && (reduce.Some? ==> exists e :: e in items && reduce.value == rules[e.ruleNumber] && LeastOf(items, e))
  }

  /** No item of `items` has a smaller rule number than `e`. */
  ghost predicate LeastOf(items: set<NL.Item>, e: NL.Item) {
    forall e' :: e' in items ==> e.ruleNumber <= e'.ruleNumber
  }

  /** The next end item in set order: one with the least rule number. */
  method LeastEnd(todo: set<NL.Item>) returns (e: NL.Item)
    requires todo != {}
    ensures e in todo && LeastOf(todo, e)
  {
    var key := (x: NL.Item) => x.ruleNumber as int;
    Orders.MinExists(todo, key);
    e :| Orders.IsMinBy(e, todo, key);
  }

  /** The inner loop of `from_itemset`: every end item in set order, and the rule of the first one
      kept; later ones are conflicts and are skipped. */
  method FirstRule(s: NL.ItemSet, rules: seq<Rule>) returns (reduce: Option<Rule>)
    requires forall item :: item in s.items ==> item.ruleNumber < |rules|
    ensures FirstEnd(rules, NL.EndItems(s, rules), reduce)
  {
    var ends := NL.EndItems(s, rules);
    var todo := ends;
    ghost var done: set<NL.Item> := {};
    ghost var floor: nat := 0;
    reduce := None;
    while todo != {}
      invariant todo <= ends && done == ends - todo
      invariant forall x :: x in done ==> x.ruleNumber <= floor
      invariant forall x :: x in todo ==> floor <= x.ruleNumber
      invariant FirstEnd(rules, done, reduce)
      decreases |todo|
    {
      var e := LeastEnd(todo);
      FirstEndStep(rules, done, reduce, e);
      reduce := if reduce.Some? then reduce else Some(rules[e.ruleNumber]);
      assert ends - (todo - {e}) == done + {e};
      todo, done, floor := todo - {e}, done + {e}, e.ruleNumber;
    }
  }

  /** Taking an item that comes no earlier than any item seen so far keeps the first rule. */
  lemma FirstEndStep(rules: seq<Rule>, done: set<NL.Item>, reduce: Option<Rule>, e: NL.Item)
    requires forall x :: x in done ==> x.ruleNumber < |rules|
    requires e.ruleNumber < |rules| && FirstEnd(rules, done, reduce)
    requires forall x :: x in done ==> x.ruleNumber <= e.ruleNumber
    ensures FirstEnd(rules, done + {e}, if reduce.Some? then reduce else Some(rules[e.ruleNumber]))
  {
    if reduce.Some? {
      var x :| x in done && reduce.value == rules[x.ruleNumber] && LeastOf(done, x);
      assert LeastOf(done + {e}, x);
    } else {
      assert done + {e} == {e};
      assert LeastOf(done + {e}, e);
    }
  }

  /** `from_itemset`: one state per item set, its edges from the row of the same index, and the
      first end rule of the set. */
  method FromItemset(sets: seq<NL.ItemSet>, rules: seq<Rule>, rows: seq<seq<(MixedChar, nat)>>)
    returns (m: StateMachine<Option<Rule>>)
    requires |rows| <= |sets|
    requires forall i, item :: 0 <= i < |sets| && item in sets[i].items ==> item.ruleNumber < |rules|
    ensures |m.states| == |sets|
    ensures forall i :: 0 <= i < |rows| ==> m.states[i].next == RowMap(rows[i])
    ensures forall i :: |rows| <= i < |sets| ==> m.states[i].next == map[]
    ensures forall i :: 0 <= i < |sets| ==> FirstEnd(rules, NL.EndItems(sets[i], rules), m.states[i].reduce)
  {
    var states := Edges(rows, |sets|, None);
    for id := 0 to |sets|
      invariant |states| == |sets|
      invariant forall i :: 0 <= i < |rows| ==> states[i].next == RowMap(rows[i])
      invariant forall i :: |rows| <= i < |sets| ==> states[i].next == map[]
      invariant forall i :: 0 <= i < id ==> FirstEnd(rules, NL.EndItems(sets[i], rules), states[i].reduce)
    {
      var reduce := FirstRule(sets[id], rules);
      states := states[id := states[id].(reduce := reduce)];
    }
    m := StateMachine(states);
  }

  /** `next_action`: shift along a terminal edge whenever there is one, otherwise reduce by the
      state's rule whatever the lookahead, otherwise reject. */
  function NextAction(m: StateMachine<Option<Rule>>, index: nat, rest: Option<Terminal>): (a: Action)
    requires index < |m.states|
    ensures Term(Current(rest)) in m.states[index].next ==> a == Shift(m.states[index].next[Term(Current(rest))])
    ensures a == Reject <==> Term(Current(rest)) !in m.states[index].next && m.states[index].reduce.None?
    ensures a.Accept? || a.Reduce? ==> m.states[index].reduce.Some? && a == ReduceBy(m.states[index].reduce.value)
  {
    var st := m.states[index];
    var t := Current(rest);
    if Term(t) in st.next then Shift(st.next[Term(t)])
    else if st.reduce.Some? then ReduceBy(st.reduce.value)
    else Reject
  }

  /** What `next_action` does in a state built from a row with no repeated symbol and the first end
      rule: shift exactly along the row's terminal pairs; else reduce by the least-numbered end item,
      the same for every lookahead without an edge; reject exactly when there is neither. */
  lemma NextFirstEnd(m: StateMachine<Option<Rule>>, index: nat, rest: Option<Terminal>,
                     rules: seq<Rule>, s: NL.ItemSet, row: seq<(MixedChar, nat)>)
    requires index < |m.states| && m.states[index].next == RowMap(row) && Distinct(Labels(row))
    requires forall item :: item in s.items ==> item.ruleNumber < |rules|
    requires FirstEnd(rules, NL.EndItems(s, rules), m.states[index].reduce)
    ensures forall j: nat :: NextAction(m, index, rest) == Shift(j) <==> (Term(Current(rest)), j) in row
    ensures NextAction(m, index, rest) == Reject <==> Term(Current(rest)) !in Labels(row) && NL.EndItems(s, rules) == {}
    ensures NextAction(m, index, rest).Accept? || NextAction(m, index, rest).Reduce? ==>
      exists e :: e in NL.EndItems(s, rules) && NextAction(m, index, rest) == ReduceBy(rules[e.ruleNumber]) &&
        LeastOf(NL.EndItems(s, rules), e)
    ensures forall other: Terminal :: Term(Current(rest)) !in Labels(row) && Term(other) !in Labels(row) ==>
      NextAction(m, index, rest) == NextAction(m, index, Some(other))
  {
    RowMapExact(row);
    var t := Current(rest);
    forall j: nat | (Term(t), j) in row ensures NextAction(m, index, rest) == Shift(j) {
      assert Term(t) in m.states[index].next && m.states[index].next[Term(t)] == j;
    }
  }

  /** On the automaton `generate_next` builds, `next_action` shifts on a terminal exactly when the
      state records it and moves on it, to the state that transition and closure reach. */
  lemma ShiftFollowsGoto(m: StateMachine<Option<Rule>>, index: nat, rules: seq<Rule>,
                         sets: seq<NL.ItemSet>, row: seq<(MixedChar, nat)>, t: Terminal)
    requires index < |m.states| && index < |sets| && m.states[index].next == RowMap(row)
    requires NL.SetOk(rules, sets[index]) && LrZero.RowOk(rules, sets, sets[index], row)
    ensures NextAction(m, index, Some(t)).Shift? <==> Term(t) in sets[index].symbols && LrZero.Moves(rules, sets[index], Term(t))
    ensures NextAction(m, index, Some(t)).Shift? ==>
      NextAction(m, index, Some(t)).target < |sets| && LrZero.Goto(rules, sets[index], Term(t)) == Some(sets[NextAction(m, index, Some(t)).target])
  {
    var next := m.states[index].next;
    if Term(t) in next {
      var p := RowPosition(row, Term(t));
      assert LrZero.Entries(rules, sets, sets[index], row);
      assert row[p].1 < |sets| && LrZero.Goto(rules, sets[index], row[p].0) == Some(sets[row[p].1]);
    }
  }

  /** On the automaton `generate_next` builds, `reduce_state` on a variable the state moves on is the
      state that goto reaches. */
  lemma GotoFollowsAutomaton(m: StateMachine<Option<Rule>>, index: nat, rules: seq<Rule>,
                             sets: seq<NL.ItemSet>, row: seq<(MixedChar, nat)>, v: Variable)
    requires index < |m.states| && index < |sets| && m.states[index].next == RowMap(row)
    requires NL.SetOk(rules, sets[index]) && LrZero.RowOk(rules, sets, sets[index], row)
    ensures Var(v) in sets[index].symbols && LrZero.Moves(rules, sets[index], Var(v)) ==>
      ReduceState(m, index, v) < |sets| && LrZero.Goto(rules, sets[index], Var(v)) == Some(sets[ReduceState(m, index, v)])
  {
    var next := m.states[index].next;
    if Var(v) in next {
      var p := RowPosition(row, Var(v));
      assert LrZero.Entries(rules, sets, sets[index], row);
      assert row[p].1 < |sets| && LrZero.Goto(rules, sets[index], row[p].0) == Some(sets[row[p].1]);
    }
  }
}
