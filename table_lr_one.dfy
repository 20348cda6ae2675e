/** The LR(1) ACTION/GOTO table (src/parsing_table/lr_one.rs).  Its `State`, `next_action` and
    `reduce_state` are those of src/parsing_table/mod.rs (`Tables.State`, `Tables.Next`,
    `Tables.ReduceState`); what differs is the reduce table, where the first end item for a lookahead
    wins and later ones are skipped. */
module TableLrOne {
  import opened Wrappers
  import opened Syntax
  import opened Worklist
  import opened Tables
  import LA = ItemLookahead
  import LrOne
  import FirstFollow

  /** No item of `items` with lookahead `t` has a smaller rule number than `e`. */
  ghost predicate Least(items: set<LA.Item>, t: Terminal, e: LA.Item) {
    forall e' :: e' in items && e'.follow == t ==> e.ruleNumber <= e'.ruleNumber
  }

  /** `table` has a rule exactly for the lookaheads of `items`, and for each it is the rule of an item
      with that lookahead whose rule number is the least among them. */
  ghost predicate FirstOver(rules: seq<Rule>, items: set<LA.Item>, table: map<Terminal, Rule>)
    requires forall e :: e in items ==> e.ruleNumber < |rules|
  {
    && (forall t :: t in table <==> HasFollow(items, t))
    && (forall t :: t in table ==>
          exists e :: e in items && e.follow == t && table[t] == rules[e.ruleNumber] && Least(items, t, e))
  }

  /** The inner loop of `from_itemset`: every end item in set order; its rule goes in for its
      lookahead unless that lookahead already has one. */
  method FirstWins(s: LA.ItemSet, rules: seq<Rule>) returns (table: map<Terminal, Rule>)
    requires forall item :: item in s.items ==> item.ruleNumber < |rules|
    ensures FirstOver(rules, LA.EndItems(s, rules), table)
  {
    var ends := LA.EndItems(s, rules);
    var todo := ends;
    ghost var done: set<LA.Item> := {};
    ghost var floor: nat := 0;
    table := map[];
    while todo != {}
      invariant todo <= ends && done == ends - todo
      invariant forall x :: x in done ==> x.ruleNumber <= floor
      invariant forall x :: x in todo ==> floor <= x.ruleNumber
      invariant FirstOver(rules, done, table)
      decreases |todo|
    {
      var e := LeastRule(todo);
      FirstStep(rules, done, table, e);
      assert ends - (todo - {e}) == done + {e};
      table := if e.follow in table then table else table[e.follow := rules[e.ruleNumber]];
      todo, done, floor := todo - {e}, done + {e}, e.ruleNumber;
    }
  }

  /** Taking an item that comes no earlier than any item seen so far keeps the table first-wins,
      whether its lookahead already has a rule (skip) or not (insert). */
  lemma FirstStep(rules: seq<Rule>, done: set<LA.Item>, table: map<Terminal, Rule>, e: LA.Item)
    requires forall x :: x in done ==> x.ruleNumber < |rules|
    requires e.ruleNumber < |rules| && FirstOver(rules, done, table)
    requires forall x :: x in done ==> x.ruleNumber <= e.ruleNumber
    ensures FirstOver(rules, done + {e}, if e.follow in table then table else table[e.follow := rules[e.ruleNumber]])
  {
    var done' := done + {e};
    var table' := if e.follow in table then table else table[e.follow := rules[e.ruleNumber]];
    forall t ensures t in table' <==> HasFollow(done', t) {
      if t != e.follow && HasFollow(done', t) {
        var x :| x in done' && x.follow == t;
        assert HasFollow(done, t);
      }
      if t == e.follow {
        assert e in done';
      }
    }
    forall t | t in table'
      ensures exists x :: x in done' && x.follow == t && table'[t] == rules[x.ruleNumber] && Least(done', t, x)
    {
      if t == e.follow && e.follow !in table {
        forall x | x in done && x.follow == t ensures false {
          assert HasFollow(done, t);
        }
        assert Least(done', t, e);
      } else {
        var x :| x in done && x.follow == t && table[t] == rules[x.ruleNumber] && Least(done, t, x);
        assert Least(done', t, x);
      }
    }
  }

  /** `from_itemset`: one state per item set, its edges from the row of the same index, and the
      first-wins reduce table of the set. */
  method FromItemset(sets: seq<LA.ItemSet>, rules: seq<Rule>, rows: seq<seq<(MixedChar, nat)>>)
    returns (m: StateMachine<map<Terminal, Rule>>)
    requires |rows| <= |sets|
    requires forall i, item :: 0 <= i < |sets| && item in sets[i].items ==> item.ruleNumber < |rules|
    ensures |m.states| == |sets|
    ensures forall i :: 0 <= i < |rows| ==> m.states[i].next == RowMap(rows[i])
    ensures forall i :: |rows| <= i < |sets| ==> m.states[i].next == map[]
    ensures forall i :: 0 <= i < |sets| ==> FirstOver(rules, LA.EndItems(sets[i], rules), m.states[i].reduce)
  {
    var states := Edges(rows, |sets|, map[]);
    for id := 0 to |sets|
      invariant |states| == |sets|
      invariant forall i :: 0 <= i < |rows| ==> states[i].next == RowMap(rows[i])
      invariant forall i :: |rows| <= i < |sets| ==> states[i].next == map[]
      invariant forall i :: 0 <= i < id ==> FirstOver(rules, LA.EndItems(sets[i], rules), states[i].reduce)
    {
      var table := FirstWins(sets[id], rules);
      states := states[id := states[id].(reduce := table)];
    }
    m := StateMachine(states);
  }

  /** What `next_action` does in a state built from a row with no repeated symbol and a first-wins
      table: shift exactly along the row's terminal pairs, even where an end item has that
      lookahead; else reduce by the least-numbered end item for the lookahead; reject exactly when
      there is neither. */
  lemma NextFirstWins(m: StateMachine<map<Terminal, Rule>>, index: nat, rest: Option<Terminal>,
                      rules: seq<Rule>, s: LA.ItemSet, row: seq<(MixedChar, nat)>)
    requires index < |m.states| && m.states[index].next == RowMap(row) && Distinct(Labels(row))
    requires forall item :: item in s.items ==> item.ruleNumber < |rules|
    requires FirstOver(rules, LA.EndItems(s, rules), m.states[index].reduce)
    ensures forall j: nat :: Next(m, index, rest) == Shift(j) <==> (Term(Current(rest)), j) in row
    ensures Next(m, index, rest) == Reject <==> Term(Current(rest)) !in Labels(row) && !HasFollow(LA.EndItems(s, rules), Current(rest))
    ensures Next(m, index, rest).Accept? || Next(m, index, rest).Reduce? ==>
      exists e :: e in LA.EndItems(s, rules) && e.follow == Current(rest) && Next(m, index, rest) == ReduceBy(rules[e.ruleNumber]) &&
        Least(LA.EndItems(s, rules), Current(rest), e)
  {
    RowMapExact(row);
    var t := Current(rest);
    forall j: nat | (Term(t), j) in row ensures Next(m, index, rest) == Shift(j) {
      assert Term(t) in m.states[index].next && m.states[index].next[Term(t)] == j;
    }
  }

  /** On the automaton `generate_next` builds, `next_action` follows the automaton: it shifts on a
      terminal exactly when the state records it and moves on it, to the state that transition and closure reach. */
  lemma ShiftFollowsGoto(m: StateMachine<map<Terminal, Rule>>, index: nat, rules: seq<Rule>, follow: FirstFollow.Follow,
                         sets: seq<LA.ItemSet>, row: seq<(MixedChar, nat)>, t: Terminal)
    requires index < |m.states| && index < |sets| && m.states[index].next == RowMap(row)
    requires LA.SetOk(rules, sets[index]) && LrOne.RowOk(rules, follow, sets, sets[index], row)
    ensures Next(m, index, Some(t)).Shift? <==> Term(t) in sets[index].symbols && LrOne.Moves(rules, sets[index], Term(t))
    ensures Next(m, index, Some(t)).Shift? ==>
      Next(m, index, Some(t)).target < |sets| && LrOne.Goto(rules, follow, sets[index], Term(t)) == Some(sets[Next(m, index, Some(t)).target])
  {
    var next := m.states[index].next;
    if Term(t) in next {
      var p := RowPosition(row, Term(t));
      assert LrOne.Entries(rules, follow, sets, sets[index], row);
      assert row[p].1 < |sets| && LrOne.Goto(rules, follow, sets[index], row[p].0) == Some(sets[row[p].1]);
    }
  }

  /** On the automaton `generate_next` builds, `reduce_state` on a variable the state moves on is the
      state that goto reaches. */
  lemma GotoFollowsAutomaton(m: StateMachine<map<Terminal, Rule>>, index: nat, rules: seq<Rule>, follow: FirstFollow.Follow,
                             sets: seq<LA.ItemSet>, row: seq<(MixedChar, nat)>, v: Variable)
    requires index < |m.states| && index < |sets| && m.states[index].next == RowMap(row)
    requires LA.SetOk(rules, sets[index]) && LrOne.RowOk(rules, follow, sets, sets[index], row)
    ensures Var(v) in sets[index].symbols && LrOne.Moves(rules, sets[index], Var(v)) ==>
      ReduceState(m, index, v) < |sets| && LrOne.Goto(rules, follow, sets[index], Var(v)) == Some(sets[ReduceState(m, index, v)])
  {
    var next := m.states[index].next;
    if Var(v) in next {
      var p := RowPosition(row, Var(v));
      assert LrOne.Entries(rules, follow, sets, sets[index], row);
      assert row[p].1 < |sets| && LrOne.Goto(rules, follow, sets[index], row[p].0) == Some(sets[row[p].1]);
    }
  }
}
