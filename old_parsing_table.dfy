/** The older ACTION/GOTO table (src/parsing_table.rs), built from LR(0) item sets like those of
    src/itemset/lr_zero.rs: one state per set, its edges copied from `ordering_map`, and at most one
    rule to reduce by.  Unlike src/parsing_table/lr_zero.rs it keeps the LAST end rule of a set, and
    a missing input is never looked up at all.  The `Action`, `State` and `StateMachine` shapes, the
    edge loop and `reduce_state` are those of `Tables`. */
module OldParsingTable {
  import opened Wrappers
  import opened Syntax
  import opened Worklist
  import opened Tables
  import TableLrZero
  import NL = ItemNoLookahead

  /** `reduce` is empty exactly when there is no item in `items`, and otherwise the rule of an item
      whose rule number is the greatest among them. */
  ghost predicate LastEnd(rules: seq<Rule>, items: set<NL.Item>, reduce: Option<Rule>)
    requires forall e :: e in items ==> e.ruleNumber < |rules|
  {
    && (reduce.None? <==> items == {})
    && (reduce.Some? ==> exists e :: e in items && reduce.value == rules[e.ruleNumber] && GreatestOf(items, e))
  }

  /** No item of `items` has a greater rule number than `e`. */
  ghost predicate GreatestOf(items: set<NL.Item>, e: NL.Item) {
    forall e' :: e' in items ==> e'.ruleNumber <= e.ruleNumber
  }

  /** The inner loop of `from_itemset`: every rule `reduce` yields, in set order, stored over the
      one before it, so the last one stays. */
  method LastRule(s: NL.ItemSet, rules: seq<Rule>) returns (reduce: Option<Rule>)
    requires forall item :: item in s.items ==> item.ruleNumber < |rules|
    ensures LastEnd(rules, NL.EndItems(s, rules), reduce)
  {
    var ends := NL.EndItems(s, rules);
    var todo := ends;
    ghost var done: set<NL.Item> := {};
    ghost var floor: nat := 0;
    reduce := None;
    while todo != {}
      invariant todo <= ends && done == ends - todo
      invariant forall x :: x in done ==> x.ruleNumber <= floor
      invariant forall x :: x in todo ==> floor <= x.ruleNumber
      invariant LastEnd(rules, done, reduce)
      decreases |todo|
    {
      var e := TableLrZero.LeastEnd(todo);
      LastEndStep(rules, done, reduce, e);
      reduce := Some(rules[e.ruleNumber]);
      assert ends - (todo - {e}) == done + {e};
      todo, done, floor := todo - {e}, done + {e}, e.ruleNumber;
    }
  }

  /** Overwriting with an item that comes no earlier than any item seen so far keeps the last
      rule. */
  lemma LastEndStep(rules: seq<Rule>, done: set<NL.Item>, reduce: Option<Rule>, e: NL.Item)
    requires forall x :: x in done ==> x.ruleNumber < |rules|
    requires e.ruleNumber < |rules| && LastEnd(rules, done, reduce)
    requires forall x :: x in done ==> x.ruleNumber <= e.ruleNumber
    ensures LastEnd(rules, done + {e}, Some(rules[e.ruleNumber]))
  {
    assert GreatestOf(done + {e}, e);
  }

  /** `from_itemset`: one state per item set, its edges from the row of the same index, and the
      last end rule of the set; conflicts are only reported, so nothing else changes. */
  method FromItemset(sets: seq<NL.ItemSet>, rules: seq<Rule>, rows: seq<seq<(MixedChar, nat)>>)
    returns (m: StateMachine<Option<Rule>>)
    requires |rows| <= |sets|
    requires forall i, item :: 0 <= i < |sets| && item in sets[i].items ==> item.ruleNumber < |rules|
    ensures |m.states| == |sets|
    ensures forall i :: 0 <= i < |rows| ==> m.states[i].next == RowMap(rows[i])
    ensures forall i :: |rows| <= i < |sets| ==> m.states[i].next == map[]
    ensures forall i :: 0 <= i < |sets| ==> LastEnd(rules, NL.EndItems(sets[i], rules), m.states[i].reduce)
  {
    var states := Edges(rows, |sets|, None);
    for id := 0 to |sets|
      invariant |states| == |sets|
      invariant forall i :: 0 <= i < |rows| ==> states[i].next == RowMap(rows[i])
      invariant forall i :: |rows| <= i < |sets| ==> states[i].next == map[]
      invariant forall i :: 0 <= i < id ==> LastEnd(rules, NL.EndItems(sets[i], rules), states[i].reduce)
    {
      var reduce := LastRule(sets[id], rules);
      states := states[id := states[id].(reduce := reduce)];
    }
    m := StateMachine(states);
  }

  /** `next`: shift when there is an input terminal with an edge; otherwise reduce by the state's
      rule, whatever the input and even with none; otherwise reject.  A missing input has no edge. */
  function Next(m: StateMachine<Option<Rule>>, index: nat, rest: Option<Terminal>): (a: Action)
    requires index < |m.states|
    ensures rest.Some? && Term(rest.value) in m.states[index].next ==> a == Shift(m.states[index].next[Term(rest.value)])
    ensures a.Shift? ==> rest.Some?
    ensures a == Reject <==> (rest.None? || Term(rest.value) !in m.states[index].next) && m.states[index].reduce.None?
    ensures a.Accept? || a.Reduce? ==> m.states[index].reduce.Some? && a == ReduceBy(m.states[index].reduce.value)
  {
    var st := m.states[index];
    if rest.Some? && Term(rest.value) in st.next then Shift(st.next[Term(rest.value)])
    else if st.reduce.Some? then ReduceBy(st.reduce.value)
    else Reject
  }

  /** What `next` does in a state built from a row with no repeated symbol and the last end rule:
      shift exactly along the row's terminal pairs; else reduce by the greatest-numbered end item,
      the same with no input as for any terminal without an edge; reject exactly when there is
      neither. */
  lemma NextLastEnd(m: StateMachine<Option<Rule>>, index: nat, rest: Option<Terminal>,
                    rules: seq<Rule>, s: NL.ItemSet, row: seq<(MixedChar, nat)>)
    requires index < |m.states| && m.states[index].next == RowMap(row) && Distinct(Labels(row))
    requires forall item :: item in s.items ==> item.ruleNumber < |rules|
    requires LastEnd(rules, NL.EndItems(s, rules), m.states[index].reduce)
    ensures forall j: nat :: Next(m, index, rest) == Shift(j) <==> rest.Some? && (Term(rest.value), j) in row
    ensures Next(m, index, rest) == Reject <==>
      (rest.None? || Term(rest.value) !in Labels(row)) && NL.EndItems(s, rules) == {}
    ensures Next(m, index, rest).Accept? || Next(m, index, rest).Reduce? ==>
      exists e :: e in NL.EndItems(s, rules) && Next(m, index, rest) == ReduceBy(rules[e.ruleNumber]) &&
        GreatestOf(NL.EndItems(s, rules), e)
    ensures forall other: Terminal :: Term(other) !in Labels(row) ==> Next(m, index, None) == Next(m, index, Some(other))
  {
    RowMapExact(row);
    forall j: nat | rest.Some? && (Term(rest.value), j) in row ensures Next(m, index, rest) == Shift(j) {
      assert Term(rest.value) in m.states[index].next && m.states[index].next[Term(rest.value)] == j;
    }
  }
}
