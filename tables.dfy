/** The ACTION/GOTO tables built from an automaton (src/parsing_table/mod.rs): one state per item set,
    its edges copied from `ordering_map`, and a rule to reduce by for each lookahead.  The edge loop,
    the `Action` type and the `next`/`reduce_state` lookups are shared with
    src/parsing_table/lr_one.rs and src/parsing_table/lr_zero.rs, which differ only in how they
    choose the reduce rule. */
module Tables {
  import opened Wrappers
  import opened Syntax
  import opened Worklist
  import Orders
  import LA = ItemLookahead

  /** What the parser does next. */
  datatype Action = Accept | Reject | Shift(target: nat) | Reduce(clause: Variable, length: nat)

  /** A state: the target on each symbol, and what to reduce by (a rule per lookahead for the LR(1)
      tables, at most one rule for the LR(0) table). */
  datatype State<R> = State(next: map<MixedChar, nat>, reduce: R)

  datatype StateMachine<R> = StateMachine(states: seq<State<R>>)

  // ---------------------------------------------------------------------------------------------
  // Edges

  /** The labels of `labels` are pairwise different. */
  predicate Distinct(labels: seq<MixedChar>) {
    forall i, j :: 0 <= i < j < |labels| ==> labels[i] != labels[j]
  }

  /** A row of `ordering_map` is in strictly ascending symbol order, so no symbol occurs twice. */
  lemma InOrderDistinct(labels: seq<MixedChar>)
    requires InOrder(labels)
    ensures Distinct(labels)
  {
    forall i, j | 0 <= i < j < |labels| ensures labels[i] != labels[j] {
      RankOrdersAsDerived(labels[i], labels[j]);
    }
  }

  /** The `HashMap` that inserting the pairs of `row` one after another leaves: a later pair for a
      symbol overwrites an earlier one. */
  function RowMap(row: seq<(MixedChar, nat)>): (r: map<MixedChar, nat>)
    ensures forall c :: c in r <==> c in Labels(row)
    ensures forall c :: c in r ==> (c, r[c]) in row
  {
    if row == [] then map[]
    else
      var init := row[..|row| - 1];
      var last := row[|row| - 1];
      assert row == init + [last];
      LabelsSnoc(init, last.0, last.1);
      RowMap(init)[last.0 := last.1]
  }

  /** With no symbol repeated, the map holds exactly the pairs of the row. */
  lemma RowMapExact(row: seq<(MixedChar, nat)>)
    requires Distinct(Labels(row))
    ensures forall c, j :: c in RowMap(row) && RowMap(row)[c] == j <==> (c, j) in row
  {
    forall c, j | (c, j) in row ensures c in RowMap(row) && RowMap(row)[c] == j {
      RowMapPair(row, c, j);
    }
  }

  lemma RowMapPair(row: seq<(MixedChar, nat)>, c: MixedChar, j: nat)
    requires Distinct(Labels(row)) && (c, j) in row
    ensures c in RowMap(row) && RowMap(row)[c] == j
  {
    var m := RowMap(row);
    var labels := Labels(row);
    var p :| 0 <= p < |row| && row[p] == (c, j);
    assert labels[p] == c;
    var q :| 0 <= q < |row| && row[q] == (c, m[c]);
    assert labels[q] == c;
    assert p == q;
  }

  /** `vec![State::new(); n]`, then every pair `(c, j)` of row `i` of `ordering_map` inserted into the
      edges of state `i`.  Indexing the states by row needs no more rows than states. */
  method Edges<R>(rows: seq<seq<(MixedChar, nat)>>, n: nat, empty: R) returns (states: seq<State<R>>)
    requires |rows| <= n
    ensures |states| == n
    ensures forall i :: 0 <= i < n ==> states[i].reduce == empty
    ensures forall i :: 0 <= i < |rows| ==> states[i].next == RowMap(rows[i])
    ensures forall i :: |rows| <= i < n ==> states[i].next == map[]
  {
    states := seq(n, _ => State(map[], empty));
    for i := 0 to |rows|
      invariant |states| == n
      invariant forall k :: 0 <= k < n ==> states[k].reduce == empty
      invariant forall k :: 0 <= k < i ==> states[k].next == RowMap(rows[k])
      invariant forall k :: i <= k < n ==> states[k].next == map[]
    {
      var row := rows[i];
      for p := 0 to |row|
        invariant |states| == n
        invariant forall k :: 0 <= k < n ==> states[k].reduce == empty
        invariant forall k :: 0 <= k < i ==> states[k].next == RowMap(rows[k])
        invariant forall k :: i < k < n ==> states[k].next == map[]
        invariant states[i].next == RowMap(row[..p])
      {
        var (c, j) := row[p];
        assert row[..p + 1][..p] == row[..p];
        states := states[i := states[i].(next := states[i].next[c := j])];
      }
      assert row[..|row|] == row;
    }
  }

  // ---------------------------------------------------------------------------------------------
  // Lookups

  /** `rest.unwrap_or(Terminal::epsilon())`: a missing input is looked up as epsilon. */
  function Current(rest: Option<Terminal>): (t: Terminal)
    ensures rest.None? ==> t == Epsilon()
    ensures rest.Some? ==> t == rest.value
  {
    if rest.Some? then rest.value else Epsilon()
  }

  /** Reducing by `rule`: acceptance for the end rule, otherwise its clause and the number of symbols
      to pop. */
  function ReduceBy(rule: Rule): (a: Action)
    ensures a == Accept <==> rule.clause.symbol == END_VARIABLE
    ensures a != Accept ==> a == Reduce(rule.clause, Len(rule))
  {
    if rule.clause.symbol == END_VARIABLE then Accept else Reduce(rule.clause, Len(rule))
  }

  /** `next`: shift along a terminal edge whenever there is one, otherwise reduce by the rule for
      that lookahead, otherwise reject. */
  function Next(m: StateMachine<map<Terminal, Rule>>, index: nat, rest: Option<Terminal>): (a: Action)
    requires index < |m.states|
    ensures Term(Current(rest)) in m.states[index].next ==> a == Shift(m.states[index].next[Term(Current(rest))])
    ensures a == Reject <==> Term(Current(rest)) !in m.states[index].next && Current(rest) !in m.states[index].reduce
    ensures a.Accept? || a.Reduce? ==> Current(rest) in m.states[index].reduce && a == ReduceBy(m.states[index].reduce[Current(rest)])
  {
    var st := m.states[index];
    var t := Current(rest);
    if Term(t) in st.next then Shift(st.next[Term(t)])
    else if t in st.reduce then ReduceBy(st.reduce[t])
    else Reject
  }

  /** `reduce_state`: the target on variable `v`, or state 0 when there is none. */
  function ReduceState<R>(m: StateMachine<R>, index: nat, v: Variable): (r: nat)
    requires index < |m.states|
    ensures Var(v) in m.states[index].next ==> r == m.states[index].next[Var(v)]
    ensures Var(v) !in m.states[index].next ==> r == 0
  {
    if Var(v) in m.states[index].next then m.states[index].next[Var(v)] else 0
  }

  /** For a state whose edges were copied from a row with no repeated symbol: the shift on a
      terminal and the goto on a variable are exactly the row's pairs, and `reduce_state` falls back
      to 0 only for a variable the row does not have. */
  lemma EdgesOfRow<R>(m: StateMachine<R>, index: nat, row: seq<(MixedChar, nat)>, v: Variable)
    requires index < |m.states| && m.states[index].next == RowMap(row) && Distinct(Labels(row))
    ensures forall c, j :: c in m.states[index].next && m.states[index].next[c] == j <==> (c, j) in row
    ensures forall j :: (Var(v), j) in row ==> ReduceState(m, index, v) == j
    ensures ReduceState(m, index, v) == 0 <==> Var(v) !in Labels(row) || (Var(v), 0) in row
  {
    RowMapExact(row);
  }

  /** The position in an ascending row where `c`'s pair sits. */
  lemma RowPosition(row: seq<(MixedChar, nat)>, c: MixedChar) returns (p: nat)
    requires InOrder(Labels(row)) && c in RowMap(row)
    ensures p < |row| && row[p] == (c, RowMap(row)[c])
  {
    var m := RowMap(row);
    p :| 0 <= p < |row| && row[p] == (c, m[c]);
  }

  // ---------------------------------------------------------------------------------------------
  // The last-wins reduce table

  /** Some item of `items` has lookahead `t`. */
  ghost predicate HasFollow(items: set<LA.Item>, t: Terminal) {
    exists e :: e in items && e.follow == t
  }

  /** No item of `items` with lookahead `t` has a greater rule number than `e`. */
  ghost predicate Greatest(items: set<LA.Item>, t: Terminal, e: LA.Item) {
    forall e' :: e' in items && e'.follow == t ==> e'.ruleNumber <= e.ruleNumber
  }

  /** `table` has a rule exactly for the lookaheads of `items`, and for each it is the rule of an item
      with that lookahead whose rule number is the greatest among them. */
  ghost predicate LastOver(rules: seq<Rule>, items: set<LA.Item>, table: map<Terminal, Rule>)
    requires forall e :: e in items ==> e.ruleNumber < |rules|
  {
    && (forall t :: t in table <==> HasFollow(items, t))
    && (forall t :: t in table ==>
          exists e :: e in items && e.follow == t && table[t] == rules[e.ruleNumber] && Greatest(items, t, e))
  }

  /** The next item in set order: one with the least rule number.  The derived order on items compares
      the rule number first, and items with one rule number reduce by the same rule. */
  method LeastRule(todo: set<LA.Item>) returns (e: LA.Item)
    requires todo != {}
    ensures e in todo && forall e' :: e' in todo ==> e.ruleNumber <= e'.ruleNumber
  {
    var key := (x: LA.Item) => x.ruleNumber as int;
    Orders.MinExists(todo, key);
    e :| Orders.IsMinBy(e, todo, key);
  }

  /** The inner loop of `from_itemset`: every end item in set order, its rule inserted for its
      lookahead, so a later item overwrites an earlier one. */
  method LastWins(s: LA.ItemSet, rules: seq<Rule>) returns (table: map<Terminal, Rule>)
    requires forall item :: item in s.items ==> item.ruleNumber < |rules|
    ensures LastOver(rules, LA.EndItems(s, rules), table)
  {
    var ends := LA.EndItems(s, rules);
    var todo := ends;
    ghost var done: set<LA.Item> := {};
    ghost var floor: nat := 0;
    table := map[];
    while todo != {}
      invariant todo + done == ends && todo !! done
      invariant forall x :: x in done ==> x.ruleNumber <= floor
      invariant forall x :: x in todo ==> floor <= x.ruleNumber
      invariant LastOver(rules, done, table)
      decreases |todo|
    {
      var e := LeastRule(todo);
      LastStep(rules, done, table, e);
      table := table[e.follow := rules[e.ruleNumber]];
      todo, done, floor := todo - {e}, done + {e}, e.ruleNumber;
    }
  }

  /** Overwriting with an item that comes no earlier than any item seen so far keeps the table
      last-wins. */
  lemma LastStep(rules: seq<Rule>, done: set<LA.Item>, table: map<Terminal, Rule>, e: LA.Item)
    requires forall x :: x in done ==> x.ruleNumber < |rules|
    requires e.ruleNumber < |rules| && LastOver(rules, done, table)
    requires forall x :: x in done ==> x.ruleNumber <= e.ruleNumber
    ensures LastOver(rules, done + {e}, table[e.follow := rules[e.ruleNumber]])
  {
    var done', table' := done + {e}, table[e.follow := rules[e.ruleNumber]];
    forall t ensures t in table' <==> HasFollow(done', t) {
      if t != e.follow && HasFollow(done', t) {
        var x :| x in done' && x.follow == t;
        assert HasFollow(done, t);
      }
    }
    forall t | t in table'
      ensures exists x :: x in done' && x.follow == t && table'[t] == rules[x.ruleNumber] && Greatest(done', t, x)
    {
      if t == e.follow {
        assert Greatest(done', t, e);
      } else {
        var x :| x in done && x.follow == t && table[t] == rules[x.ruleNumber] && Greatest(done, t, x);
        assert Greatest(done', t, x);
      }
    }
  }

  /** `from_itemset`: one state per item set, its edges from the row of the same index, and the
      last-wins reduce table of the set. */
  method FromItemset(sets: seq<LA.ItemSet>, rules: seq<Rule>, rows: seq<seq<(MixedChar, nat)>>)
    returns (m: StateMachine<map<Terminal, Rule>>)
    requires |rows| <= |sets|
    requires forall i, item :: 0 <= i < |sets| && item in sets[i].items ==> item.ruleNumber < |rules|
    ensures |m.states| == |sets|
    ensures forall i :: 0 <= i < |rows| ==> m.states[i].next == RowMap(rows[i])
    ensures forall i :: |rows| <= i < |sets| ==> m.states[i].next == map[]
    ensures forall i :: 0 <= i < |sets| ==> LastOver(rules, LA.EndItems(sets[i], rules), m.states[i].reduce)
  {
    var states := Edges(rows, |sets|, map[]);
    for id := 0 to |sets|
      invariant |states| == |sets|
      invariant forall i :: 0 <= i < |rows| ==> states[i].next == RowMap(rows[i])
      invariant forall i :: |rows| <= i < |sets| ==> states[i].next == map[]
      invariant forall i :: 0 <= i < id ==> LastOver(rules, LA.EndItems(sets[i], rules), states[i].reduce)
    {
      var table := LastWins(sets[id], rules);
      states := states[id := states[id].(reduce := table)];
    }
    m := StateMachine(states);
  }

  /** What `next` does in a state built from a row with no repeated symbol and a last-wins table:
      shift exactly along the row's terminal pairs, else reduce by the greatest-numbered end item for
      the lookahead, and reject exactly when there is neither. */
  lemma NextLastWins(m: StateMachine<map<Terminal, Rule>>, index: nat, rest: Option<Terminal>,
                     rules: seq<Rule>, s: LA.ItemSet, row: seq<(MixedChar, nat)>)
    requires index < |m.states| && m.states[index].next == RowMap(row) && Distinct(Labels(row))
    requires forall item :: item in s.items ==> item.ruleNumber < |rules|
    requires LastOver(rules, LA.EndItems(s, rules), m.states[index].reduce)
    ensures forall j: nat :: Next(m, index, rest) == Shift(j) <==> (Term(Current(rest)), j) in row
    ensures Next(m, index, rest) == Reject <==> Term(Current(rest)) !in Labels(row) && !HasFollow(LA.EndItems(s, rules), Current(rest))
    ensures Next(m, index, rest).Accept? || Next(m, index, rest).Reduce? ==>
      exists e :: e in LA.EndItems(s, rules) && e.follow == Current(rest) && Next(m, index, rest) == ReduceBy(rules[e.ruleNumber]) &&
        forall e' :: e' in LA.EndItems(s, rules) && e'.follow == Current(rest) ==> e'.ruleNumber <= e.ruleNumber
  {
    RowMapExact(row);
    var t := Current(rest);
    forall j | (Term(t), j) in row ensures Next(m, index, rest) == Shift(j) {
      assert Term(t) in m.states[index].next && m.states[index].next[Term(t)] == j;
    }
  }
}
