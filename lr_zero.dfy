/** The LR(0) item-set collection and its generation (src/itemset/lr_zero.rs). */
module LrZero {
  import opened Wrappers
  import opened Syntax
  import opened Convert
  import opened RuleDepend
  import opened ItemNoLookahead
  import opened Worklist

  // ---------------------------------------------------------------------------------------------
  // What generation computes

  /** Well-formed items whose `symbols` are exactly the symbols after their dots. */
  ghost predicate Consistent(rules: seq<Rule>, s: ItemSet) {
    SetOk(rules, s) && s.symbols == SymbolsOf(rules, s.items)
  }

  /** The state generation starts from: the closure of the first rule with the dot at its start. */
  ghost function Start(rules: seq<Rule>): ItemSet
    requires |rules| > 0
  {
    Closure(rules, AddRule(Empty(), rules[0], 0, 0, true))
  }

  /** Where `transitions` followed by `add_non_kernel` takes `s` on `c`: nothing when no item of `s`
      has `c` after its dot. */
  ghost function Goto(rules: seq<Rule>, s: ItemSet, c: MixedChar): (r: Option<ItemSet>)
    requires SetOk(rules, s)
    ensures r.Some? <==> Moves(rules, s, c)
  {
    if Moves(rules, s, c) then Some(Closure(rules, Moved(s.items, c, rules))) else None
  }

  /** Some item of `s` has `c` after its dot. */
  ghost predicate Moves(rules: seq<Rule>, s: ItemSet, c: MixedChar)
    requires SetOk(rules, s)
  {
    exists item :: item in s.items && Symbol(rules, item) == Some(c)
  }

  /** The symbols of `s` on which it goes somewhere. */
  ghost function MovingSymbols(rules: seq<Rule>, s: ItemSet): set<MixedChar>
    requires SetOk(rules, s)
  {
    set c | c in s.symbols && Moves(rules, s, c)
  }

  /** `row` is what `generate_next` writes for `s`: one entry for each symbol of `s` that moves some
      item, in ascending order, naming a set of `sets` equal to where that symbol takes `s`. */
  ghost predicate RowOk(rules: seq<Rule>, sets: seq<ItemSet>, s: ItemSet, row: seq<(MixedChar, nat)>)
    requires SetOk(rules, s)
  {
    && InOrder(Labels(row))
    && (forall c :: c in Labels(row) <==> c in s.symbols && Moves(rules, s, c))
    && Entries(rules, sets, s, row)
  }

  /** Each entry of `row` names a set of `sets` equal to where its symbol takes `s`. */
  ghost predicate Entries(rules: seq<Rule>, sets: seq<ItemSet>, s: ItemSet, row: seq<(MixedChar, nat)>)
    requires SetOk(rules, s)
  {
    forall p :: 0 <= p < |row| ==> row[p].1 < |sets| && Goto(rules, s, row[p].0) == Some(sets[row[p].1])
  }

  // ---------------------------------------------------------------------------------------------
  // Facts about the states

  /** The closure of a consistent set is consistent. */
  lemma ClosureConsistent(rules: seq<Rule>, s: ItemSet)
    requires Consistent(rules, s)
    ensures Consistent(rules, Closure(rules, s))
  {
    var c := Closure(rules, s);
    var ks := ClosureRules(rules, s.symbols);
    forall x | x in c.items ensures ItemOk(rules, x) {
      if x !in s.items {
        var k :| k in ks && x == Item(k, false, 0);
      }
    }
    forall m | m in SymbolsOf(rules, c.items) ensures m in c.symbols {
      var x :| x in c.items && Symbol(rules, x) == Some(m);
      if x !in s.items {
        var k :| k in ks && x == Item(k, false, 0);
        assert |rules[k].output| > 0 && rules[k].output[0] == m;
      }
    }
    forall m | m in c.symbols ensures m in SymbolsOf(rules, c.items) {
      if m !in s.symbols {
        var k :| k in ks && |rules[k].output| > 0 && rules[k].output[0] == m;
        assert Item(k, false, 0) in c.items && Symbol(rules, Item(k, false, 0)) == Some(m);
      }
    }
  }

  /** The start state is consistent and holds the kernel item of the first rule. */
  lemma StartConsistent(rules: seq<Rule>)
    requires |rules| > 0
    ensures Consistent(rules, Start(rules))
    ensures Item(0, true, 0) in Start(rules).items
  {
    var s := AddRule(Empty(), rules[0], 0, 0, true);
    AddRuleConsistent(rules, Empty(), 0, 0, true);
    ClosureConsistent(rules, s);
  }

  /** A state reached on a symbol is consistent and never holds the start item: its kernel items have
      their dot past the start, and the closure adds only non-kernel items. */
  lemma GotoConsistent(rules: seq<Rule>, s: ItemSet, c: MixedChar)
    requires SetOk(rules, s) && Goto(rules, s, c).Some?
    ensures Consistent(rules, Goto(rules, s, c).value)
    ensures Item(0, true, 0) !in Goto(rules, s, c).value.items
  {
    MovedOk(s.items, c, rules);
    ClosureConsistent(rules, Moved(s.items, c, rules));
  }

  /** On a consistent set every symbol moves some item, so its row has one entry per symbol. */
  lemma EverySymbolMoves(rules: seq<Rule>, s: ItemSet, c: MixedChar)
    requires Consistent(rules, s) && c in s.symbols
    ensures Moves(rules, s, c)
  {
    var x :| x in s.items && Symbol(rules, x) == Some(c);
  }

  /** The clauses the rule graph of `g` indexes are exactly the variables that have a rule, so a
      consistent set of kernel items, past the start of their rules or at the start of rule 0, only
      names indexed variables. */
  lemma ConsistentIndexed(g: RuleGraph, s: ItemSet)
    requires VariablesOk(g) && IndexingOk(g) && LookupsClosed(g.rules)
    requires Consistent(g.rules, s)
    requires forall x :: x in s.items ==> 1 <= x.dot || x.ruleNumber == 0
    ensures forall v :: Var(v) in s.symbols ==> v in g.indexing
  {
    assert ShiftedClosed(g.rules) && StartClosed(g.rules);
    forall v | Var(v) in s.symbols ensures v in g.indexing {
      var x :| x in s.items && Symbol(g.rules, x) == Some(Var(v));
      assert g.rules[x.ruleNumber].output[x.dot] == Var(v);
      assert IsClause(g.rules, v);
      var r :| r in g.rules && r.clause == v;
    }
  }

  // ---------------------------------------------------------------------------------------------
  // A finite universe of states, which bounds the generation loop

  ghost function AllItems(rules: seq<Rule>): set<Item> {
    set k: nat, kernel: bool, dot: nat | k < |rules| && dot <= |rules[k].output| :: Item(k, kernel, dot)
  }

  ghost function Universe(rules: seq<Rule>): set<ItemSet> {
    set items, symbols | items <= AllItems(rules) && symbols <= AllSymbols(rules) :: ItemSet(items, symbols)
  }

  lemma InUniverse(rules: seq<Rule>, s: ItemSet)
    requires Consistent(rules, s)
    ensures s in Universe(rules)
  {
    forall x | x in s.items ensures x in AllItems(rules) {
      assert ItemOk(rules, x);
    }
    forall m | m in s.symbols ensures m in AllSymbols(rules) {
      var x :| x in s.items && Symbol(rules, x) == Some(m);
      assert rules[x.ruleNumber].output[x.dot] == m;
    }
  }

  /** Some finite set holds every consistent item set. */
  lemma UniverseExists(rules: seq<Rule>)
    ensures exists u: set<ItemSet> :: Covers(rules, u)
  {
    forall s | Consistent(rules, s) ensures s in Universe(rules) {
      InUniverse(rules, s);
    }
    assert Covers(rules, Universe(rules));
  }

  ghost predicate Covers(rules: seq<Rule>, u: set<ItemSet>) {
    forall s {:trigger Consistent(rules, s)} :: Consistent(rules, s) ==> s in u
  }

  // ---------------------------------------------------------------------------------------------
  // The collection

  /** `itemmaps` of `generate_next`: each set reached on a symbol, mapped to its place in `sets`,
      every place after `n0` (where the start state went) listed once. */
  ghost predicate MapsOk(rules: seq<Rule>, sets: seq<ItemSet>, n0: nat, maps: map<ItemSet, nat>) {
    && n0 < |sets|
    && Item(0, true, 0) in sets[n0].items
    && (forall s :: s in maps ==> n0 < maps[s] < |sets| && sets[maps[s]] == s)
    && (forall j :: n0 < j < |sets| ==> sets[j] in maps && maps[sets[j]] == j)
    && (forall s :: s in maps ==> Consistent(rules, s) && Item(0, true, 0) !in s.items)
  }

  /** What generation keeps of its sets: the map of reached sets, inside the finite bound `u`, and
      every set it pushed consistent. */
  ghost predicate States(rules: seq<Rule>, sets: seq<ItemSet>, n0: nat, u: set<ItemSet>, maps: map<ItemSet, nat>) {
    && MapsOk(rules, sets, n0, maps)
    && Covers(rules, u) && maps.Keys <= u
    && (forall i :: n0 <= i < |sets| ==> Consistent(rules, sets[i]))
  }

  class ItemSets {
    var sets: seq<ItemSet>
    var rules: seq<Rule>
    var orderingMap: seq<seq<(MixedChar, nat)>>

    /** There is a first rule to start from, and every item of every set is well-formed. */
    ghost predicate Valid()
      reads this
    {
      |rules| > 0 && AllOk(rules, sets)
    }

    /** `new`: the collection holds the end rule alone.  `Rule::end` is not part of this model, so the
        end rule is passed in. */
    constructor (endRule: Rule)
      ensures rules == [endRule] && sets == [] && orderingMap == []
      ensures Valid()
    {
      rules := [endRule];
      sets := [];
      orderingMap := [];
    }

    /** `add_rule`: the rule goes last. */
    method AddRule(rule: Rule)
      requires Valid()
      modifies this
      ensures rules == old(rules) + [rule] && sets == old(sets) && orderingMap == old(orderingMap)
      ensures Valid()
    {
      rules := rules + [rule];
      forall i | 0 <= i < |sets| ensures SetOk(rules, sets[i]) {
        assert SetOk(old(rules), sets[i]);
      }
      assert AllOk(rules, sets);
    }

    /** `add_from_string`: parse the line and add the rule; on a parse error nothing changes. */
    method AddFromString(line: string) returns (ok: bool)
      requires Valid()
      modifies this
      ensures ok <==> RuleOfLine(line).Ok?
      ensures rules == if ok then old(rules) + [RuleOfLine(line).value] else old(rules)
      ensures sets == old(sets) && orderingMap == old(orderingMap)
      ensures Valid()
    {
      var rule := ParseRule(line);
      if rule.Err? {
        return false;
      }
      AddRule(rule.value);
      ok := true;
    }

    /** `clear`: the sets and the rows go, the rules stay. */
    method Clear()
      modifies this
      ensures sets == [] && orderingMap == [] && rules == old(rules)
    {
      sets := [];
      orderingMap := [];
    }

    /** `generate_next`: push the start state, then take the sets one by one from the first, writing
        one row of `ordering_map` for each and pushing every set not seen before.  Sets already in the
        collection are taken again, and `itemmaps` knows only the sets this call reaches on a symbol. */
    method GenerateNext()
      requires Valid() && LookupsClosed(rules)
      modifies this
      ensures Valid() && rules == old(rules)
      ensures |sets| > |old(sets)| && sets[..|old(sets)|] == old(sets)
      ensures sets[|old(sets)|] == Start(rules)
      ensures |orderingMap| == |old(orderingMap)| + |sets|
      ensures orderingMap[..|old(orderingMap)|] == old(orderingMap)
      ensures forall i :: 0 <= i < |sets| ==> RowOk(rules, sets, sets[i], orderingMap[|old(orderingMap)| + i])
      ensures forall i :: |old(sets)| <= i < |sets| ==> Consistent(rules, sets[i])
      ensures forall i, j :: |old(sets)| <= i < j < |sets| ==> sets[i] != sets[j]
    {
      sets, orderingMap := Generation(rules, sets, orderingMap);
    }
  }

  /** What `generate_next` does to the sets and the rows, with the rules fixed. */
  method Generation(rules: seq<Rule>, base: seq<ItemSet>, rows: seq<seq<(MixedChar, nat)>>)
    returns (sets: seq<ItemSet>, rows': seq<seq<(MixedChar, nat)>>)
    requires |rules| > 0 && AllOk(rules, base) && LookupsClosed(rules)
    ensures AllOk(rules, sets)
    ensures |sets| > |base| && sets[..|base|] == base
    ensures sets[|base|] == Start(rules)
    ensures |rows'| == |rows| + |sets| && rows'[..|rows|] == rows
    ensures forall i :: 0 <= i < |sets| ==> RowOk(rules, sets, sets[i], rows'[|rows| + i])
    ensures forall i :: |base| <= i < |sets| ==> Consistent(rules, sets[i])
    ensures forall i, j :: |base| <= i < j < |sets| ==> sets[i] != sets[j]
  {
    var ruleGraph, first := Prepare(rules);
    ghost var maps;
    sets, rows', maps := Generate(rules, ruleGraph, base, first, rows);
    forall i, j | |base| <= i < j < |sets| ensures sets[i] != sets[j] {
      MapsDistinct(rules, sets, |base|, maps, i, j);
    }
  }

  /** What `generate_next` builds before its worklist: the rule graph and the first set. */
  method Prepare(rules: seq<Rule>) returns (g: RuleGraph, start: ItemSet)
    requires |rules| > 0 && LookupsClosed(rules)
    ensures GraphFor(g, rules) && start == Start(rules) && Consistent(rules, start) && Item(0, true, 0) in start.items
  {
    g := New(rules);
    assert GraphFor(g, rules);
    start := StartState(g, rules);
  }

  /** The first set of `generate_next`: the first rule with the dot at its start, closed. */
  method StartState(g: RuleGraph, rules: seq<Rule>) returns (s: ItemSet)
    requires GraphOk(g) && g.rules == rules && |rules| > 0 && LookupsClosed(rules)
    ensures s == Start(rules) && Consistent(rules, s) && Item(0, true, 0) in s.items
  {
    s := ItemNoLookahead.AddRule(Empty(), rules[0], 0, 0, true);
    AddRuleConsistent(rules, Empty(), 0, 0, true);
    ConsistentIndexed(g, s);
    s := AddNonKernel(s, g, rules);
    StartConsistent(rules);
  }

  /** The outer loop of `generate_next`, with the start state last in `sets`: one row for each set
      from the first, every set reached on a symbol pushed unless `itemmaps` already has it. */
  method Generate(rules: seq<Rule>, g: RuleGraph, base: seq<ItemSet>, first: ItemSet, rows: seq<seq<(MixedChar, nat)>>)
    returns (sets': seq<ItemSet>, rows': seq<seq<(MixedChar, nat)>>, ghost maps: map<ItemSet, nat>)
    requires GraphFor(g, rules)
    requires AllOk(rules, base) && Consistent(rules, first) && Item(0, true, 0) in first.items
    ensures |sets'| > |base| && sets'[..|base|] == base && sets'[|base|] == first && AllOk(rules, sets')
    ensures |rows'| == |rows| + |sets'| && rows'[..|rows|] == rows
    ensures forall i :: 0 <= i < |sets'| ==> RowOk(rules, sets', sets'[i], rows'[|rows| + i])
    ensures MapsOk(rules, sets', |base|, maps)
    ensures forall i :: |base| <= i < |sets'| ==> Consistent(rules, sets'[i])
  {
    ghost var n0 := |base|;
    var sets := base + [first];
    UniverseExists(rules);
    ghost var u: set<ItemSet> :| Covers(rules, u);
    sets', rows', maps := sets, rows, map[];
    var itemmaps: map<ItemSet, nat> := map[];
    var index := 0;
    while index < |sets'|
      invariant |sets'| > n0 && sets'[..|sets|] == sets && AllOk(rules, sets')
      invariant States(rules, sets', n0, u, itemmaps)
      invariant 0 <= index <= |sets'|
      invariant |rows'| == |rows| + index && rows'[..|rows|] == rows
      invariant Rows(rules, sets', rows', |rows|, index)
      decreases |u| - |itemmaps|, |sets'| - index
    {
      var cur := sets'[index];
      ghost var before := sets';
      var row;
      KeysBound(u, itemmaps);
      sets', row, itemmaps := Expand(rules, g, sets', cur, n0, u, itemmaps);
      PrefixKept(before, sets', n0, index);
      PrefixTrans(sets, before, sets');
      RowsExtend(rules, before, sets', rows', |rows|, index);
      RowsSnoc(rules, sets', rows', |rows|, index, row);
      assert (rows' + [row])[..|rows|] == rows'[..|rows|];
      rows' := rows' + [row];
      index := index + 1;
    }
    maps := itemmaps;
    SnocPrefix(base, first, sets');
  }

  /** The inner loop of `generate_next`: the symbols of `cur` in ascending order. */
  method Expand(rules: seq<Rule>, g: RuleGraph, sets: seq<ItemSet>, cur: ItemSet, ghost n0: nat,
                ghost u: set<ItemSet>, itemmaps: map<ItemSet, nat>)
    returns (sets': seq<ItemSet>, row: seq<(MixedChar, nat)>, maps: map<ItemSet, nat>)
    requires GraphFor(g, rules)
    requires SetOk(rules, cur) && AllOk(rules, sets)
    requires States(rules, sets, n0, u, itemmaps)
    ensures |sets'| >= |sets| && sets'[..|sets|] == sets && AllOk(rules, sets')
    ensures States(rules, sets', n0, u, maps)
    ensures RowOk(rules, sets', cur, row)
    ensures |maps| == |itemmaps| + (|sets'| - |sets|)
  {
    var cs := Ascending(cur.symbols);
    sets', row, maps := sets, [], itemmaps;
    for p := 0 to |cs|
      invariant |sets'| >= |sets| && sets'[..|sets|] == sets && AllOk(rules, sets')
      invariant States(rules, sets', n0, u, maps)
      invariant Labels(row) == Kept(cs[..p], MovingSymbols(rules, cur))
      invariant Entries(rules, sets', cur, row)
      invariant |maps| == |itemmaps| + (|sets'| - |sets|)
    {
      KeptStep(cs, p, MovingSymbols(rules, cur));
      ghost var before := sets';
      sets', row, maps := Step(rules, g, sets', cur, cs[p], n0, u, row, maps);
      PrefixTrans(sets, before, sets');
    }
    assert cs[..|cs|] == cs;
    KeptInOrder(cs, MovingSymbols(rules, cur));
  }

  /** The body of the inner loop of `generate_next` for the symbol `c`: when `c` moves some item of
      `cur`, the closure of the moved items is looked up, pushed if it is new, and named in the row. */
  method Step(rules: seq<Rule>, g: RuleGraph, sets: seq<ItemSet>, cur: ItemSet, c: MixedChar, ghost n0: nat,
              ghost u: set<ItemSet>, row: seq<(MixedChar, nat)>, maps: map<ItemSet, nat>)
    returns (sets': seq<ItemSet>, row': seq<(MixedChar, nat)>, maps': map<ItemSet, nat>)
    requires GraphFor(g, rules)
    requires SetOk(rules, cur) && AllOk(rules, sets)
    requires States(rules, sets, n0, u, maps) && Entries(rules, sets, cur, row)
    ensures |sets'| >= |sets| && sets'[..|sets|] == sets && AllOk(rules, sets')
    ensures States(rules, sets', n0, u, maps') && Entries(rules, sets', cur, row')
    ensures Labels(row') == Labels(row) + if Moves(rules, cur, c) then [c] else []
    ensures |maps'| == |maps| + (|sets'| - |sets|)
  {
    sets', row', maps' := sets, row, maps;
    var next := GotoOf(rules, g, cur, c);
    if next.Some? {
      GotoConsistent(rules, cur, c);
      if next.value in maps {
        row' := row + [(c, maps[next.value])];
        EntriesSnoc(rules, sets, cur, row, c, maps[next.value]);
      } else {
        StatesPush(rules, sets, n0, u, maps, next.value);
        maps' := maps[next.value := |sets|];
        EntriesExtend(rules, sets, sets + [next.value], cur, row);
        row' := row + [(c, |sets|)];
        EntriesSnoc(rules, sets + [next.value], cur, row, c, |sets|);
        sets' := sets + [next.value];
      }
    }
  }

  /** `transitions` followed by `add_non_kernel`: where `cur` goes on `c`. */
  method GotoOf(rules: seq<Rule>, g: RuleGraph, cur: ItemSet, c: MixedChar) returns (r: Option<ItemSet>)
    requires GraphFor(g, rules) && SetOk(rules, cur)
    ensures r == Goto(rules, cur, c)
  {
    assert GraphOk(g);
    var moved := Transitions(cur, c, rules);
    if moved.None? {
      return None;
    }
    MovedOk(cur.items, c, rules);
    MovedShifted(cur.items, c, rules);
    ConsistentIndexed(g, moved.value);
    var next := AddNonKernel(moved.value, g, rules);
    r := Some(next);
  }

  /** Every item of every set is well-formed. */
  ghost predicate AllOk(rules: seq<Rule>, sets: seq<ItemSet>) {
    forall i :: 0 <= i < |sets| ==> SetOk(rules, sets[i])
  }

  /** Pushing a consistent set that is new to the map keeps the states, and uses up one set of `u`. */
  lemma StatesPush(rules: seq<Rule>, sets: seq<ItemSet>, n0: nat, u: set<ItemSet>, maps: map<ItemSet, nat>, next: ItemSet)
    requires States(rules, sets, n0, u, maps) && AllOk(rules, sets)
    requires Consistent(rules, next) && Item(0, true, 0) !in next.items && next !in maps
    ensures States(rules, sets + [next], n0, u, maps[next := |sets|]) && AllOk(rules, sets + [next])
    ensures |maps[next := |sets|]| == |maps| + 1
  {
  }

  /** An entry naming where `c` takes `s` can go last in the row. */
  lemma EntriesSnoc(rules: seq<Rule>, sets: seq<ItemSet>, s: ItemSet, row: seq<(MixedChar, nat)>, c: MixedChar, n: nat)
    requires SetOk(rules, s) && Entries(rules, sets, s, row)
    requires n < |sets| && Goto(rules, s, c) == Some(sets[n])
    ensures Entries(rules, sets, s, row + [(c, n)])
    ensures Labels(row + [(c, n)]) == Labels(row) + [c]
  {
    LabelsSnoc(row, c, n);
  }

  /** The start state and the sets reached on a symbol are pairwise different. */
  lemma MapsDistinct(rules: seq<Rule>, sets: seq<ItemSet>, n0: nat, maps: map<ItemSet, nat>, i: nat, j: nat)
    requires MapsOk(rules, sets, n0, maps)
    requires n0 <= i < j < |sets|
    ensures sets[i] != sets[j]
  {
    assert sets[j] in maps;
  }

  lemma EntriesExtend(rules: seq<Rule>, sets: seq<ItemSet>, sets': seq<ItemSet>, s: ItemSet, row: seq<(MixedChar, nat)>)
    requires SetOk(rules, s) && Entries(rules, sets, s, row)
    requires |sets| <= |sets'| && sets'[..|sets|] == sets
    ensures Entries(rules, sets', s, row)
  {
    forall p | 0 <= p < |row| ensures row[p].1 < |sets'| && Goto(rules, s, row[p].0) == Some(sets'[row[p].1]) {
      assert sets'[row[p].1] == sets[row[p].1];
    }
  }

  /** The first `n` sets have their rows, from `off` on. */
  ghost predicate Rows(rules: seq<Rule>, sets: seq<ItemSet>, rows: seq<seq<(MixedChar, nat)>>, off: nat, n: nat)
    requires AllOk(rules, sets) && n <= |sets| && off + n <= |rows|
  {
    forall i :: 0 <= i < n ==> RowOk(rules, sets, sets[i], rows[off + i])
  }

  /** The rows stay right when more sets are pushed. */
  lemma RowsExtend(rules: seq<Rule>, sets: seq<ItemSet>, sets': seq<ItemSet>, rows: seq<seq<(MixedChar, nat)>>, off: nat, n: nat)
    requires AllOk(rules, sets) && AllOk(rules, sets') && n <= |sets| <= |sets'| && sets'[..|sets|] == sets
    requires off + n <= |rows| && Rows(rules, sets, rows, off, n)
    ensures Rows(rules, sets', rows, off, n)
  {
    forall i | 0 <= i < n ensures RowOk(rules, sets', sets'[i], rows[off + i]) {
      assert sets'[i] == sets'[..|sets|][i];
      RowOkExtend(rules, sets, sets', sets[i], rows[off + i]);
    }
  }

  /** The row of the next set goes after the others. */
  lemma RowsSnoc(rules: seq<Rule>, sets: seq<ItemSet>, rows: seq<seq<(MixedChar, nat)>>, off: nat, n: nat,
                 row: seq<(MixedChar, nat)>)
    requires AllOk(rules, sets) && n < |sets| && off + n == |rows| && Rows(rules, sets, rows, off, n)
    requires RowOk(rules, sets, sets[n], row)
    ensures Rows(rules, sets, rows + [row], off, n + 1)
  {
    forall i | 0 <= i < n + 1 ensures RowOk(rules, sets, sets[i], (rows + [row])[off + i]) {
      if i < n {
        assert (rows + [row])[off + i] == rows[off + i];
      }
    }
  }

  /** A row stays right when more sets are pushed after the ones it names. */
  lemma RowOkExtend(rules: seq<Rule>, sets: seq<ItemSet>, sets': seq<ItemSet>, s: ItemSet, row: seq<(MixedChar, nat)>)
    requires SetOk(rules, s) && RowOk(rules, sets, s, row)
    requires |sets| <= |sets'| && sets'[..|sets|] == sets
    ensures RowOk(rules, sets', s, row)
  {
    EntriesExtend(rules, sets, sets', s, row);
  }
}
