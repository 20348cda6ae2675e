/** LR(0) items and item sets (src/itemset/item_no_lookahead.rs). */
module ItemNoLookahead {
  import opened Wrappers
  import opened Syntax
  import Orders
  import opened RuleDepend
  import opened Graphs
  import LA = ItemLookahead

  /** The item `rules[ruleNumber]` with the dot before `output[dot]`.  The derived order compares
      `ruleNumber`, then `kernel`, then `dot`. */
  datatype Item = Item(ruleNumber: nat, kernel: bool, dot: nat)

  predicate ItemOk(rules: seq<Rule>, item: Item) {
    item.ruleNumber < |rules| && item.dot <= |rules[item.ruleNumber].output|
  }

  /** `shift`: the dot moves one symbol right and the item becomes a kernel item. */
  function Shift(item: Item): (r: Item)
    ensures r.ruleNumber == item.ruleNumber && r.dot == item.dot + 1 && r.kernel
  {
    Item(item.ruleNumber, true, item.dot + 1)
  }

  /** `symbol`: the symbol right after the dot, if the dot is not at the end. */
  function Symbol(rules: seq<Rule>, item: Item): (r: Option<MixedChar>)
    requires item.ruleNumber < |rules|
    ensures r.Some? <==> item.dot < |rules[item.ruleNumber].output|
    ensures r.Some? ==> r.value == rules[item.ruleNumber].output[item.dot]
  {
    var out := rules[item.ruleNumber].output;
    if item.dot < |out| then Some(out[item.dot]) else None
  }

  /** `is_end`: the dot stands after the whole output. */
  function IsEnd(rules: seq<Rule>, item: Item): (b: bool)
    requires item.ruleNumber < |rules|
    ensures b <==> item.dot == |rules[item.ruleNumber].output|
  {
    |rules[item.ruleNumber].output| == item.dot
  }

  /** A well-formed item has a symbol after its dot or is at the end, never both; shifting over that
      symbol keeps it well-formed. */
  lemma SymbolOrEnd(rules: seq<Rule>, item: Item)
    requires ItemOk(rules, item)
    ensures Symbol(rules, item).Some? != IsEnd(rules, item)
    ensures Symbol(rules, item).Some? ==> ItemOk(rules, Shift(item))
  {
  }

  /** An item set, with the symbols that stand right after some dot. */
  datatype ItemSet = ItemSet(items: set<Item>, symbols: set<MixedChar>)

  predicate SetOk(rules: seq<Rule>, s: ItemSet) {
    forall item :: item in s.items ==> ItemOk(rules, item)
  }

  /** The symbols right after the dots of `items`. */
  function SymbolsOf(rules: seq<Rule>, items: set<Item>): (r: set<MixedChar>)
    requires forall item :: item in items ==> item.ruleNumber < |rules|
    ensures forall c :: c in r <==> exists item :: item in items && Symbol(rules, item) == Some(c)
  {
    set item | item in items && Symbol(rules, item).Some? :: Symbol(rules, item).value
  }

  /** `ItemSet::new`. */
  function Empty(): (s: ItemSet)
    ensures s.items == {} && s.symbols == {}
  {
    ItemSet({}, {})
  }

  /** `add_rule` (kernel false) and `add_kernel` (kernel true): the item `(ruleNumber, dot)` and the
      symbol of `rule` at `dot`, if there is one. */
  function AddRule(s: ItemSet, rule: Rule, dot: nat, ruleNumber: nat, kernel: bool): (r: ItemSet)
    ensures r.items == s.items + {Item(ruleNumber, kernel, dot)}
    ensures dot < |rule.output| ==> r.symbols == s.symbols + {rule.output[dot]}
    ensures dot >= |rule.output| ==> r.symbols == s.symbols
  {
    if dot < |rule.output| then ItemSet(s.items + {Item(ruleNumber, kernel, dot)}, s.symbols + {rule.output[dot]})
    else ItemSet(s.items + {Item(ruleNumber, kernel, dot)}, s.symbols)
  }

  /** Adding an item of one of `rules` keeps `symbols` exactly the symbols after the dots. */
  lemma AddRuleConsistent(rules: seq<Rule>, s: ItemSet, dot: nat, ruleNumber: nat, kernel: bool)
    requires forall item :: item in s.items ==> item.ruleNumber < |rules|
    requires s.symbols == SymbolsOf(rules, s.items)
    requires ruleNumber < |rules|
    ensures var r := AddRule(s, rules[ruleNumber], dot, ruleNumber, kernel);
      r.symbols == SymbolsOf(rules, r.items)
  {
    var r := AddRule(s, rules[ruleNumber], dot, ruleNumber, kernel);
    var item := Item(ruleNumber, kernel, dot);
    forall c | c in SymbolsOf(rules, r.items) ensures c in r.symbols {
      var x :| x in r.items && Symbol(rules, x) == Some(c);
      if x !in s.items {
        assert x == item;
      }
    }
    if dot < |rules[ruleNumber].output| {
      assert Symbol(rules, item) == Some(rules[ruleNumber].output[dot]);
    }
  }

  /** `add_item`: the item and the symbol after its dot. */
  function AddItem(s: ItemSet, rules: seq<Rule>, item: Item): (r: ItemSet)
    requires item.ruleNumber < |rules|
    ensures r.items == s.items + {item}
    ensures Symbol(rules, item).Some? ==> r.symbols == s.symbols + {Symbol(rules, item).value}
    ensures Symbol(rules, item).None? ==> r.symbols == s.symbols
  {
    match Symbol(rules, item)
    case Some(c) => ItemSet(s.items + {item}, s.symbols + {c})
    case None => ItemSet(s.items + {item}, s.symbols)
  }

  /** The shifts of those `items` whose symbol is `c`, with their symbols. */
  function Moved(items: set<Item>, c: MixedChar, rules: seq<Rule>): ItemSet
    requires forall item :: item in items ==> item.ruleNumber < |rules|
  {
    var shifted := set item | item in items && Symbol(rules, item) == Some(c) :: Shift(item);
    ItemSet(shifted, SymbolsOf(rules, shifted))
  }

  lemma MovedOk(items: set<Item>, c: MixedChar, rules: seq<Rule>)
    requires forall item :: item in items ==> ItemOk(rules, item)
    ensures forall item :: item in items ==> item.ruleNumber < |rules|
    ensures SetOk(rules, Moved(items, c, rules))
  {
  }

  /** Every moved item is a kernel item past the start of its rule. */
  lemma MovedShifted(items: set<Item>, c: MixedChar, rules: seq<Rule>)
    requires forall item :: item in items ==> item.ruleNumber < |rules|
    ensures forall x :: x in Moved(items, c, rules).items ==> x.kernel && 1 <= x.dot
  {
    forall x | x in Moved(items, c, rules).items ensures x.kernel && 1 <= x.dot {
      var item :| item in items && Symbol(rules, item) == Some(c) && x == Shift(item);
    }
  }

  lemma SymbolsOfAdd(rules: seq<Rule>, items: set<Item>, x: Item)
    requires forall y :: y in items ==> y.ruleNumber < |rules|
    requires x.ruleNumber < |rules|
    ensures SymbolsOf(rules, items + {x}) ==
      SymbolsOf(rules, items) + (if Symbol(rules, x).Some? then {Symbol(rules, x).value} else {})
  {
  }

  /** Looking at one more item either shifts it into the new set or leaves the set as it was. */
  lemma MovedStep(done: set<Item>, item: Item, c: MixedChar, rules: seq<Rule>)
    requires forall x :: x in done ==> x.ruleNumber < |rules|
    requires item.ruleNumber < |rules|
    ensures Moved(done + {item}, c, rules) ==
      if Symbol(rules, item) == Some(c) then AddItem(Moved(done, c, rules), rules, Shift(item)) else Moved(done, c, rules)
  {
    var a := Moved(done + {item}, c, rules);
    var m := Moved(done, c, rules);
    if Symbol(rules, item) == Some(c) {
      assert a.items == m.items + {Shift(item)} by {
        forall x | x in a.items ensures x in m.items + {Shift(item)} {
          var y :| y in done + {item} && Symbol(rules, y) == Some(c) && x == Shift(y);
          if y != item {
            assert x in m.items;
          }
        }
      }
      SymbolsOfAdd(rules, m.items, Shift(item));
    } else {
      assert a.items == m.items by {
        forall x | x in a.items ensures x in m.items {
          var y :| y in done + {item} && Symbol(rules, y) == Some(c) && x == Shift(y);
        }
      }
    }
  }

  /** `transitions`: the shifted items over `c`, or `None` when no item has `c` after its dot. */
  method Transitions(s: ItemSet, c: MixedChar, rules: seq<Rule>) returns (r: Option<ItemSet>)
    requires forall item :: item in s.items ==> item.ruleNumber < |rules|
    ensures r.None? <==> forall item :: item in s.items ==> Symbol(rules, item) != Some(c)
    ensures r.Some? ==> r.value == Moved(s.items, c, rules)
  {
    var newSet := Empty();
    var todo := s.items;
    while todo != {}
      invariant todo <= s.items
      invariant newSet == Moved(s.items - todo, c, rules)
      decreases todo
    {
      var item :| item in todo;
      MovedStep(s.items - todo, item, c, rules);
      assert s.items - (todo - {item}) == (s.items - todo) + {item};
      if Symbol(rules, item) == Some(c) {
        newSet := AddItem(newSet, rules, Shift(item));
      }
      todo := todo - {item};
    }
    assert s.items - todo == s.items;
    if |newSet.items| == 0 {
      forall item | item in s.items ensures Symbol(rules, item) != Some(c) {
        assert Shift(item) !in newSet.items;
      }
      return None;
    }
    var x :| x in newSet.items;
    return Some(newSet);
  }

  /** `other_item` is `item` with the dot one step further. */
  predicate Precedes(item: Item, otherItem: Item) {
    item.dot + 1 == otherItem.dot && item.ruleNumber == otherItem.ruleNumber
  }

  ghost predicate Linked(s: ItemSet, other: ItemSet) {
    exists item, otherItem {:trigger Precedes(item, otherItem)} :: item in s.items && otherItem in other.items && Precedes(item, otherItem)
  }

  ghost predicate LinkedBy(rules: seq<Rule>, s: ItemSet, other: ItemSet, c: MixedChar)
    requires forall item :: item in s.items ==> item.ruleNumber < |rules|
  {
    exists item, otherItem {:trigger Precedes(item, otherItem)} ::
      item in s.items && otherItem in other.items && Precedes(item, otherItem) && Symbol(rules, item) == Some(c)
  }

  /** The derived `Ord` of `Item`: rule number first, then `kernel` (false before true), then dot. */
  predicate ItemLess(a: Item, b: Item) {
    || a.ruleNumber < b.ruleNumber
    || (a.ruleNumber == b.ruleNumber && !a.kernel && b.kernel)
    || (a.ruleNumber == b.ruleNumber && a.kernel == b.kernel && a.dot < b.dot)
  }

  lemma ItemLessTotal()
    ensures Orders.StrictTotalOrder(ItemLess)
  {
  }

  /** The item a `BTreeSet<Item>` yields first: the least one. */
  method LeastItem(todo: set<Item>) returns (item: Item)
    requires todo != {}
    ensures Orders.IsLeast(item, todo, ItemLess)
  {
    ItemLessTotal();
    Orders.LeastExists(todo, ItemLess);
    item :| Orders.IsLeast(item, todo, ItemLess);
  }

  /** Some item of `other` is `item` with the dot one step further. */
  ghost predicate LeadsInto(item: Item, other: ItemSet) {
    exists otherItem :: otherItem in other.items && Precedes(item, otherItem)
  }

  /** `item` comes first, in set order, among the items of `s` that lead into `other`. */
  ghost predicate FirstLinked(s: ItemSet, other: ItemSet, item: Item) {
    && item in s.items && LeadsInto(item, other)
    && forall x :: x in s.items && LeadsInto(x, other) && x != item ==> ItemLess(item, x)
  }

  /** `is_previous`: the items of `s` in set order, and for the first one that some item of `other`
      follows one step further, the symbol after its dot; the `unwrap` there needs that dot before
      the end of the rule.  Which item of `other` is met first does not change the answer. */
  method IsPrevious(s: ItemSet, rules: seq<Rule>, other: ItemSet) returns (r: Option<MixedChar>)
    requires forall item :: item in s.items ==> item.ruleNumber < |rules|
    requires forall item, otherItem :: item in s.items && otherItem in other.items && Precedes(item, otherItem) ==>
      item.dot < |rules[item.ruleNumber].output|
    ensures r.None? <==> !Linked(s, other)
    ensures r.Some? ==> exists item :: FirstLinked(s, other, item) && Symbol(rules, item) == Some(r.value)
    ensures r.Some? ==> LinkedBy(rules, s, other, r.value)
  {
    var outer := s.items;
    while outer != {}
      invariant outer <= s.items
      invariant forall item, otherItem :: item in s.items - outer && otherItem in other.items ==> !Precedes(item, otherItem)
      decreases outer
    {
      var item := LeastItem(outer);
      var inner := other.items;
      while inner != {}
        invariant inner <= other.items
        invariant forall otherItem :: otherItem in other.items - inner ==> !Precedes(item, otherItem)
        decreases inner
      {
        var otherItem :| otherItem in inner;
        if item.dot + 1 == otherItem.dot && item.ruleNumber == otherItem.ruleNumber {
          var c := Symbol(rules, item).value;
          assert Precedes(item, otherItem) && Symbol(rules, item) == Some(c);
          FirstAmongOuter(s, other, outer, item);
          return Some(c);
        }
        inner := inner - {otherItem};
      }
      outer := outer - {item};
    }
    r := None;
  }

  /** The least of the items not yet looked at that leads into `other` is the first linked item, when
      no item already looked at leads there. */
  lemma FirstAmongOuter(s: ItemSet, other: ItemSet, outer: set<Item>, item: Item)
    requires outer <= s.items && Orders.IsLeast(item, outer, ItemLess) && LeadsInto(item, other)
    requires forall x, y :: x in s.items - outer && y in other.items ==> !Precedes(x, y)
    ensures FirstLinked(s, other, item)
  {
    forall x | x in s.items && LeadsInto(x, other) && x != item ensures ItemLess(item, x) {
      var y :| y in other.items && Precedes(x, y);
      assert x in outer;
    }
  }

  /** Linking recovers the label: when every item of `other` past the start of its rule is a shift
      over `c` of an item of `t`, every linked pair from `s` into `other` has `c` after the dot. */
  lemma LinkedIsLabel(rules: seq<Rule>, s: ItemSet, t: ItemSet, c: MixedChar, other: ItemSet)
    requires forall item :: item in s.items ==> item.ruleNumber < |rules|
    requires forall item :: item in t.items ==> item.ruleNumber < |rules|
    requires forall y :: y in other.items && y.dot >= 1 ==> y in Moved(t.items, c, rules).items
    ensures forall c' :: LinkedBy(rules, s, other, c') ==> c' == c
  {
    forall c' | LinkedBy(rules, s, other, c') ensures c' == c {
      var item, y :| item in s.items && y in other.items && Precedes(item, y) && Symbol(rules, item) == Some(c');
      assert y in Moved(t.items, c, rules).items;
      var z :| z in t.items && Symbol(rules, z) == Some(c) && y == Shift(z);
      assert z.ruleNumber == item.ruleNumber && z.dot == item.dot;
    }
  }

  /** A set holding the transition of `s` over `c` is linked from `s`, by `c` among others. */
  lemma LinkedToMoved(rules: seq<Rule>, s: ItemSet, c: MixedChar, other: ItemSet)
    requires forall item :: item in s.items ==> item.ruleNumber < |rules|
    requires exists item :: item in s.items && Symbol(rules, item) == Some(c)
    requires Moved(s.items, c, rules).items <= other.items
    ensures Linked(s, other) && LinkedBy(rules, s, other, c)
  {
    var item :| item in s.items && Symbol(rules, item) == Some(c);
    assert Shift(item) in Moved(s.items, c, rules).items;
    assert Precedes(item, Shift(item));
  }

  /** The items whose dot is at the end of their rule. */
  function EndItems(s: ItemSet, rules: seq<Rule>): (r: set<Item>)
    requires forall item :: item in s.items ==> item.ruleNumber < |rules|
    ensures forall item :: item in r <==> item in s.items && IsEnd(rules, item)
  {
    set item | item in s.items && IsEnd(rules, item)
  }

  /** `reduce`: the rule of each end item. */
  function Reduce(s: ItemSet, rules: seq<Rule>): (r: set<Rule>)
    requires forall item :: item in s.items ==> item.ruleNumber < |rules|
    ensures forall rule :: rule in r <==> exists item :: item in s.items && IsEnd(rules, item) && rule == rules[item.ruleNumber]
  {
    set item | item in EndItems(s, rules) :: rules[item.ruleNumber]
  }

  // ---------------------------------------------------------------------------------------------
  // Closure

  /** The variables among `symbols`, in the order a `BTreeSet<MixedChar>` yields them. */
  function SymbolVariables(symbols: set<MixedChar>): (r: seq<Variable>)
    ensures forall v :: v in r <==> Var(v) in symbols
  {
    SortedVariables(VariablesOf(symbols))
  }

  /** Some variable among `symbols` left-reaches `v`. */
  ghost predicate LeftReached(rules: seq<Rule>, symbols: set<MixedChar>, v: Variable) {
    exists u :: Var(u) in symbols && LeftReaches(rules, u, v)
  }

  /** The rules whose clause some variable among `symbols` left-reaches. */
  ghost function ClosureRules(rules: seq<Rule>, symbols: set<MixedChar>): set<nat> {
    set k: nat | k < |rules| && LeftReached(rules, symbols, rules[k].clause)
  }

  /** The numbers listed in `ks`. */
  function Members(ks: seq<nat>): (r: set<nat>)
    ensures forall k :: k in r <==> k in ks
  {
    set k | k in ks
  }

  lemma MembersSnoc(ks: seq<nat>, k: nat)
    ensures Members(ks + [k]) == Members(ks) + {k}
  {
  }

  /** `s` with the item `(k, 0)` and the first symbol of rule `k`, for every `k` of `ks`. */
  ghost function WithRules(s: ItemSet, rules: seq<Rule>, ks: set<nat>): ItemSet
    requires forall k :: k in ks ==> k < |rules|
  {
    ItemSet(s.items + (set k | k in ks :: Item(k, false, 0)),
            s.symbols + (set k | k in ks && |rules[k].output| > 0 :: rules[k].output[0]))
  }

  /** The closure of `s`: a non-kernel item at dot 0 for every rule whose clause a variable after
      some dot of `s` left-reaches. */
  ghost function Closure(rules: seq<Rule>, s: ItemSet): ItemSet {
    WithRules(s, rules, ClosureRules(rules, s.symbols))
  }

  lemma WithRulesStep(s: ItemSet, rules: seq<Rule>, ks: set<nat>, k: nat)
    requires forall x :: x in ks ==> x < |rules|
    requires k < |rules|
    ensures WithRules(s, rules, ks + {k}) == AddRule(WithRules(s, rules, ks), rules[k], 0, k, false)
  {
    var a := WithRules(s, rules, ks + {k});
    var b := AddRule(WithRules(s, rules, ks), rules[k], 0, k, false);
    assert a.items == b.items;
    assert a.symbols == b.symbols;
  }

  /** `add_non_kernel` (and `get_non_kernel`, which does the same to a copy): the closure of `s`.
      `indexing` is looked up for each variable after a dot, so each must be a clause. */
  method AddNonKernel(s: ItemSet, g: RuleGraph, rules: seq<Rule>) returns (r: ItemSet)
    requires GraphOk(g) && g.rules == rules
    requires forall v :: Var(v) in s.symbols ==> v in g.indexing
    ensures r == Closure(rules, s)
  {
    var nonKernels := GetsRule(g, SymbolVariables(s.symbols));
    NonKernelsAreClosure(g, s.symbols, nonKernels);
    r := AddEach(s, rules, nonKernels);
  }

  /** The loop of `add_non_kernel`: `add_rule` at dot 0 for each rule number of `ks` in turn. */
  method AddEach(s: ItemSet, rules: seq<Rule>, ks: seq<nat>) returns (r: ItemSet)
    requires forall i :: 0 <= i < |ks| ==> ks[i] < |rules|
    ensures forall k :: k in Members(ks) ==> k < |rules|
    ensures r == WithRules(s, rules, Members(ks))
  {
    r := s;
    for i := 0 to |ks|
      invariant r == AddRules(s, rules, ks[..i])
    {
      var k := ks[i];
      assert ks[..i + 1][..i] == ks[..i];
      r := AddRule(r, rules[k], 0, k, false);
    }
    assert ks[..|ks|] == ks;
    AddRulesIsWithRules(s, rules, ks);
  }

  /** The rules of `ks` added one after another, as the loop of `add_non_kernel` does. */
  function AddRules(s: ItemSet, rules: seq<Rule>, ks: seq<nat>): ItemSet
    requires forall i :: 0 <= i < |ks| ==> ks[i] < |rules|
  {
    if ks == [] then s
    else
      var k := ks[|ks| - 1];
      AddRule(AddRules(s, rules, ks[..|ks| - 1]), rules[k], 0, k, false)
  }

  /** The order in which the rules are added does not matter. */
  lemma {:induction false} AddRulesIsWithRules(s: ItemSet, rules: seq<Rule>, ks: seq<nat>)
    requires forall i :: 0 <= i < |ks| ==> ks[i] < |rules|
    ensures AddRules(s, rules, ks) == WithRules(s, rules, Members(ks))
  {
    if ks == [] {
      assert WithRules(s, rules, {}) == s;
    } else {
      var init, k := ks[..|ks| - 1], ks[|ks| - 1];
      assert ks == init + [k];
      assert forall x :: x in Members(init) ==> x < |rules|;
      AddRulesIsWithRules(s, rules, init);
      WithRulesStep(s, rules, Members(init), k);
      MembersSnoc(init, k);
    }
  }

  /** What `gets_rule` returns for the variables after the dots is exactly the closure's rules. */
  lemma NonKernelsAreClosure(g: RuleGraph, symbols: set<MixedChar>, ks: seq<nat>)
    requires GraphOk(g)
    requires forall v :: Var(v) in symbols ==> v in g.indexing
    requires forall k: nat :: k in ks <==> (k < |g.rules| && g.rules[k].clause in g.indexing &&
      ReachedGroup(g, SymbolVariables(symbols), g.indexing[g.rules[k].clause]))
    ensures Members(ks) == ClosureRules(g.rules, symbols)
    ensures forall i :: 0 <= i < |ks| ==> ks[i] < |g.rules|
  {
    GetsRuleIsLeftReached(g, SymbolVariables(symbols), ks);
    GetsRuleMembers(g.rules, symbols, ks);
  }

  lemma GetsRuleMembers(rules: seq<Rule>, symbols: set<MixedChar>, ks: seq<nat>)
    requires forall k: nat :: k in ks <==>
      k < |rules| && exists u :: u in SymbolVariables(symbols) && LeftReaches(rules, u, rules[k].clause)
    ensures Members(ks) == ClosureRules(rules, symbols)
    ensures forall i :: 0 <= i < |ks| ==> ks[i] < |rules|
  {
    forall k: nat | k < |rules| ensures k in ks <==> LeftReached(rules, symbols, rules[k].clause) {
      if LeftReached(rules, symbols, rules[k].clause) {
        var u :| Var(u) in symbols && LeftReaches(rules, u, rules[k].clause);
        assert u in SymbolVariables(symbols);
      }
    }
    forall i | 0 <= i < |ks| ensures ks[i] < |rules| {
      assert ks[i] in ks;
    }
  }

  /** Every rule of a variable after the dot of one of `items` is among `items` at dot 0. */
  ghost predicate ClosedUnder(rules: seq<Rule>, items: set<Item>)
    requires forall x :: x in items ==> x.ruleNumber < |rules|
  {
    forall x, k :: x in items && 0 <= k < |rules| && Symbol(rules, x) == Some(Var(rules[k].clause)) ==>
      Item(k, false, 0) in items
  }

  /** The closure is closed. */
  lemma ClosureClosed(rules: seq<Rule>, s: ItemSet)
    requires forall x :: x in s.items ==> x.ruleNumber < |rules|
    requires s.symbols == SymbolsOf(rules, s.items)
    ensures forall x :: x in Closure(rules, s).items ==> x.ruleNumber < |rules|
    ensures ClosedUnder(rules, Closure(rules, s).items)
  {
    var c := Closure(rules, s);
    forall x, k | x in c.items && 0 <= k < |rules| && Symbol(rules, x) == Some(Var(rules[k].clause))
      ensures Item(k, false, 0) in c.items
    {
      ClosureStep(rules, s, x, k);
    }
  }

  lemma ClosureStep(rules: seq<Rule>, s: ItemSet, x: Item, k: nat)
    requires forall y :: y in s.items ==> y.ruleNumber < |rules|
    requires s.symbols == SymbolsOf(rules, s.items)
    requires x in Closure(rules, s).items && x.ruleNumber < |rules|
    requires k < |rules| && Symbol(rules, x) == Some(Var(rules[k].clause))
    ensures Item(k, false, 0) in Closure(rules, s).items
  {
    var b := rules[k].clause;
    assert IsClause(rules, b) by {
      assert rules[k] in rules;
    }
    if x in s.items {
      assert Var(b) in s.symbols;
      LeftReachesRefl(rules, b);
    } else {
      var j := x.ruleNumber;
      assert x == Item(j, false, 0) && j in ClosureRules(rules, s.symbols);
      var u :| Var(u) in s.symbols && LeftReaches(rules, u, rules[j].clause);
      LeftReachesStep(rules, u, j, b);
    }
    assert k in ClosureRules(rules, s.symbols);
  }

  /** The closure is the least closed set of items holding `s`. */
  lemma ClosureLeast(rules: seq<Rule>, s: ItemSet, items: set<Item>)
    requires forall x :: x in items ==> x.ruleNumber < |rules|
    requires s.items <= items && s.symbols == SymbolsOf(rules, s.items)
    requires ClosedUnder(rules, items)
    ensures Closure(rules, s).items <= items
  {
    forall k | k in ClosureRules(rules, s.symbols) ensures Item(k, false, 0) in items {
      var u :| Var(u) in s.symbols && LeftReaches(rules, u, rules[k].clause);
      var x :| x in s.items && Symbol(rules, x) == Some(Var(u));
      var p :| IsChain(rules, p) && p[0] == u && p[|p| - 1] == rules[k].clause;
      ChainClosed(rules, items, x, p, k);
    }
  }

  /** Along a chain that starts after the dot of an item of a closed set, the closed set holds every
      rule of every clause met. */
  lemma {:induction false} ChainClosed(rules: seq<Rule>, items: set<Item>, x: Item, p: seq<Variable>, k: nat)
    requires forall y :: y in items ==> y.ruleNumber < |rules|
    requires ClosedUnder(rules, items)
    requires x in items && IsChain(rules, p) && Symbol(rules, x) == Some(Var(p[0]))
    requires k < |rules| && rules[k].clause == p[|p| - 1]
    ensures Item(k, false, 0) in items
    decreases |p|
  {
    if |p| > 1 {
      var init := p[..|p| - 1];
      assert ChainStep(rules, p, |p| - 2);
      var j :| 0 <= j < |rules| && Leads(rules[j], p[|p| - 2], p[|p| - 1]);
      assert IsChain(rules, init) by {
        forall i: nat | i < |init| - 1 ensures ChainStep(rules, init, i) {
          assert ChainStep(rules, p, i);
        }
      }
      ChainClosed(rules, items, x, init, j);
      assert Symbol(rules, Item(j, false, 0)) == Some(Var(rules[k].clause));
    }
  }

  // ---------------------------------------------------------------------------------------------
  // From lookahead item sets

  function Project(item: LA.Item): (r: Item)
    ensures r.ruleNumber == item.ruleNumber && r.kernel == item.kernel && r.dot == item.dot
  {
    Item(item.ruleNumber, item.kernel, item.dot)
  }

  /** `From<&ItemSetLookahead>`: the items without their lookaheads, duplicates merged, and the same
      symbols. */
  function FromLookahead(s: LA.ItemSet): (r: ItemSet)
    ensures forall x :: x in r.items <==> exists item :: item in s.items && x == Project(item)
    ensures r.symbols == s.symbols
  {
    ItemSet(set item | item in s.items :: Project(item), s.symbols)
  }

  /** Dropping lookaheads commutes with `transitions`. */
  lemma ProjectMoved(s: LA.ItemSet, c: MixedChar, rules: seq<Rule>)
    requires forall item :: item in s.items ==> item.ruleNumber < |rules|
    ensures forall x :: x in FromLookahead(s).items ==> x.ruleNumber < |rules|
    ensures FromLookahead(LA.Moved(s.items, c, rules)) == Moved(FromLookahead(s).items, c, rules)
  {
    ProjectMovedItems(s, c, rules);
    var m := LA.Moved(s.items, c, rules);
    var a := FromLookahead(m);
    var b := Moved(FromLookahead(s).items, c, rules);
    forall d | d in b.symbols ensures d in a.symbols {
      var p :| p in b.items && Symbol(rules, p) == Some(d);
      var y :| y in m.items && p == Project(y);
      assert LA.Symbol(rules, y) == Some(d);
    }
    forall d | d in a.symbols ensures d in b.symbols {
      var y :| y in m.items && LA.Symbol(rules, y) == Some(d);
      assert Project(y) in b.items && Symbol(rules, Project(y)) == Some(d);
    }
  }

  /** The items half of `ProjectMoved`. */
  lemma ProjectMovedItems(s: LA.ItemSet, c: MixedChar, rules: seq<Rule>)
    requires forall item :: item in s.items ==> item.ruleNumber < |rules|
    ensures forall x :: x in FromLookahead(s).items ==> x.ruleNumber < |rules|
    ensures FromLookahead(LA.Moved(s.items, c, rules)).items == Moved(FromLookahead(s).items, c, rules).items
  {
    var a := FromLookahead(LA.Moved(s.items, c, rules));
    var b := Moved(FromLookahead(s).items, c, rules);
    forall x | x in a.items ensures x in b.items {
      var y :| y in LA.Moved(s.items, c, rules).items && x == Project(y);
      var item :| item in s.items && LA.Symbol(rules, item) == Some(c) && y == LA.Shift(item);
      assert Project(item) in FromLookahead(s).items && Symbol(rules, Project(item)) == Some(c);
      assert x == Shift(Project(item));
    }
    forall x | x in b.items ensures x in a.items {
      var p :| p in FromLookahead(s).items && Symbol(rules, p) == Some(c) && x == Shift(p);
      var item :| item in s.items && p == Project(item);
      assert LA.Shift(item) in LA.Moved(s.items, c, rules).items;
      assert x == Project(LA.Shift(item));
    }
  }
}
