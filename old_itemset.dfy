/** The older LR(0) item sets (src/itemset.rs).  Items and item sets are kept in `Vec`s: in the
    order they are added, with repetitions, and a set reached twice is appended twice.  The closure
    of a state other than state 0 is added only after its transitions have been taken, from the
    symbols it had before. */
module OldItemset {
  import opened Wrappers
  import opened Syntax
  import RD = RuleDepend
  import OldRuleDepend
  import OldSyntax

  /** The item `rules[ruleNumber]` with the dot before `output[dot]`. */
  datatype Item = Item(ruleNumber: nat, dot: nat)

  predicate ItemOk(rules: seq<Rule>, item: Item) {
    item.ruleNumber < |rules| && item.dot <= |rules[item.ruleNumber].output|
  }

  /** Every item of `items` names one of `rules`, so looking its rule up does not panic. */
  predicate Numbered(rules: seq<Rule>, items: seq<Item>) {
    forall k :: 0 <= k < |items| ==> items[k].ruleNumber < |rules|
  }

  /** `shift`: the dot one symbol further right. */
  function Shift(item: Item): (r: Item)
    ensures r.ruleNumber == item.ruleNumber && r.dot == item.dot + 1
  {
    Item(item.ruleNumber, item.dot + 1)
  }

  /** `symbol`: the symbol right after the dot, if the dot is not at the end. */
  function Symbol(rules: seq<Rule>, item: Item): (r: Option<MixedChar>)
    requires item.ruleNumber < |rules|
    ensures r.Some? <==> item.dot < |rules[item.ruleNumber].output|
    ensures r.Some? ==> r.value == rules[item.ruleNumber].output[item.dot]
  {
    var out := rules[item.ruleNumber].output;
    if item.dot < |out| then Some(out[item.dot]) else None
  }

  /** `is_end`: the dot stands after the whole output. */
  function IsEnd(rules: seq<Rule>, item: Item): (b: bool)
    requires item.ruleNumber < |rules|
    ensures b <==> item.dot == |rules[item.ruleNumber].output|
  {
    |rules[item.ruleNumber].output| == item.dot
  }

  /** A well-formed item has a symbol after its dot or is at the end, never both; shifting over that
      symbol keeps it well-formed. */
  lemma SymbolOrEnd(rules: seq<Rule>, item: Item)
    requires ItemOk(rules, item)
    ensures Symbol(rules, item).Some? != IsEnd(rules, item)
    ensures Symbol(rules, item).Some? ==> ItemOk(rules, Shift(item))
  {
  }

  /** An item set: its items in insertion order, and the symbols that stood after a dot when each
      item was added. */
  datatype ItemSet = ItemSet(items: seq<Item>, symbols: set<MixedChar>)

  /** The symbols right after the dots of `items`. */
  function SymbolsOf(rules: seq<Rule>, items: seq<Item>): (r: set<MixedChar>)
    requires Numbered(rules, items)
    ensures |r| <= |items|
  {
    if items == [] then {}
    else
      var init, last := items[..|items| - 1], items[|items| - 1];
      var rest := SymbolsOf(rules, init);
      match Symbol(rules, last)
      case Some(c) => rest + {c}
      case None => rest
  }

  /** A symbol is recorded exactly when it stands after the dot of some item. */
  lemma {:induction false} SymbolsOfMember(rules: seq<Rule>, items: seq<Item>, c: MixedChar)
    requires Numbered(rules, items)
    ensures c in SymbolsOf(rules, items) <==> exists k :: 0 <= k < |items| && Symbol(rules, items[k]) == Some(c)
    decreases |items|
  {
    if items != [] {
      var init, last := items[..|items| - 1], items[|items| - 1];
      SymbolsOfMember(rules, init, c);
      if exists k :: 0 <= k < |items| && Symbol(rules, items[k]) == Some(c) {
        var k :| 0 <= k < |items| && Symbol(rules, items[k]) == Some(c);
        if k < |init| {
          assert init[k] == items[k];
        }
      }
      if c in SymbolsOf(rules, init) {
        var k :| 0 <= k < |init| && Symbol(rules, init[k]) == Some(c);
        assert items[k] == init[k];
      }
    }
  }

  /** Appending an item records its symbol and nothing else. */
  lemma SymbolsOfSnoc(rules: seq<Rule>, items: seq<Item>, x: Item)
    requires Numbered(rules, items) && x.ruleNumber < |rules|
    ensures Numbered(rules, items + [x])
    ensures SymbolsOf(rules, items + [x]) ==
      SymbolsOf(rules, items) + (if Symbol(rules, x).Some? then {Symbol(rules, x).value} else {})
  {
    assert (items + [x])[..|items|] == items;
  }

  /** Every item is well-formed and `symbols` are exactly the symbols after their dots: what every
      way of building a set keeps. */
  predicate SetOk(rules: seq<Rule>, s: ItemSet) {
    && (forall k :: 0 <= k < |s.items| ==> ItemOk(rules, s.items[k]))
    && s.symbols == SymbolsOf(rules, s.items)
  }

  /** `ItemSet::new`. */
  function Empty(): (s: ItemSet)
    ensures s.items == [] && s.symbols == {}
  {
    ItemSet([], {})
  }

  /** `add_rule`: the item `(ruleNumber, dot)` at the end, and the symbol of `rule` at `dot`, if
      there is one. */
  function AddRuleAt(s: ItemSet, rule: Rule, dot: nat, ruleNumber: nat): (r: ItemSet)
    ensures r.items == s.items + [Item(ruleNumber, dot)]
    ensures dot < |rule.output| ==> r.symbols == s.symbols + {rule.output[dot]}
    ensures dot >= |rule.output| ==> r.symbols == s.symbols
  {
    if dot < |rule.output| then ItemSet(s.items + [Item(ruleNumber, dot)], s.symbols + {rule.output[dot]})
    else ItemSet(s.items + [Item(ruleNumber, dot)], s.symbols)
  }

  /** Adding a well-formed item of one of `rules`, with that rule, keeps the set well-formed. */
  lemma AddRuleOk(rules: seq<Rule>, s: ItemSet, dot: nat, ruleNumber: nat)
    requires SetOk(rules, s)
    requires ruleNumber < |rules| && dot <= |rules[ruleNumber].output|
    ensures SetOk(rules, AddRuleAt(s, rules[ruleNumber], dot, ruleNumber))
  {
    var r := AddRuleAt(s, rules[ruleNumber], dot, ruleNumber);
    assert r.items[..|s.items|] == s.items;
  }

  /** `add_item`: the item at the end, and the symbol after its dot. */
  function AddItem(s: ItemSet, rules: seq<Rule>, item: Item): (r: ItemSet)
    requires item.ruleNumber < |rules|
    ensures r.items == s.items + [item]
    ensures Symbol(rules, item).Some? ==> r.symbols == s.symbols + {Symbol(rules, item).value}
    ensures Symbol(rules, item).None? ==> r.symbols == s.symbols
  {
    match Symbol(rules, item)
    case Some(c) => ItemSet(s.items + [item], s.symbols + {c})
    case None => ItemSet(s.items + [item], s.symbols)
  }

  // ---------------------------------------------------------------------------------------------
  // Transitions

  /** The shifts, in their order, of those `items` whose symbol is `c`. */
  function ShiftedOver(items: seq<Item>, c: MixedChar, rules: seq<Rule>): (r: seq<Item>)
    requires Numbered(rules, items)
    ensures |r| <= |items|
    ensures Numbered(rules, r)
    ensures forall k :: 0 <= k < |r| ==> r[k].dot >= 1
  {
    if items == [] then []
    else
      var init, last := items[..|items| - 1], items[|items| - 1];
      var rest := ShiftedOver(init, c, rules);
      if Symbol(rules, last) == Some(c) then rest + [Shift(last)] else rest
  }

  /** The shifted items are exactly the shifts of the items whose symbol is `c`. */
  lemma {:induction false} ShiftedOverMember(items: seq<Item>, c: MixedChar, rules: seq<Rule>, x: Item)
    requires Numbered(rules, items)
    ensures x in ShiftedOver(items, c, rules) <==>
      exists k :: 0 <= k < |items| && Symbol(rules, items[k]) == Some(c) && x == Shift(items[k])
    decreases |items|
  {
    if items != [] {
      var init, last := items[..|items| - 1], items[|items| - 1];
      ShiftedOverMember(init, c, rules, x);
      if exists k :: 0 <= k < |items| && Symbol(rules, items[k]) == Some(c) && x == Shift(items[k]) {
        var k :| 0 <= k < |items| && Symbol(rules, items[k]) == Some(c) && x == Shift(items[k]);
        if k < |init| {
          assert init[k] == items[k];
        }
      }
      if x in ShiftedOver(init, c, rules) {
        var k :| 0 <= k < |init| && Symbol(rules, init[k]) == Some(c) && x == Shift(init[k]);
        assert items[k] == init[k];
      }
    }
  }

  /** Shifting keeps the order of the items: the shifts of two runs of items are the shifts of the
      first followed by those of the second. */
  lemma {:induction false} ShiftedOverAppend(a: seq<Item>, b: seq<Item>, c: MixedChar, rules: seq<Rule>)
    requires Numbered(rules, a) && Numbered(rules, b)
    ensures Numbered(rules, a + b)
    ensures ShiftedOver(a + b, c, rules) == ShiftedOver(a, c, rules) + ShiftedOver(b, c, rules)
    decreases |b|
  {
    if b != [] {
      var init, last := b[..|b| - 1], b[|b| - 1];
      assert b == init + [last];
      assert a + b == (a + init) + [last];
      ShiftedOverAppend(a, init, c, rules);
    } else {
      assert a + b == a;
    }
  }

  /** Some item has `c` right after its dot. */
  predicate Moves(rules: seq<Rule>, s: ItemSet, c: MixedChar)
    requires Numbered(rules, s.items)
  {
    exists k :: 0 <= k < |s.items| && Symbol(rules, s.items[k]) == Some(c)
  }

  /** The set `transitions` builds over `c`: the shifted items and their symbols. */
  function Moved(s: ItemSet, c: MixedChar, rules: seq<Rule>): ItemSet
    requires Numbered(rules, s.items)
  {
    var shifted := ShiftedOver(s.items, c, rules);
    ItemSet(shifted, SymbolsOf(rules, shifted))
  }

  /** The set over `c` is empty exactly when nothing moves over `c`; when something does, it is
      well-formed, no larger, and every item in it is shifted. */
  lemma MovedOk(rules: seq<Rule>, s: ItemSet, c: MixedChar)
    requires SetOk(rules, s)
    ensures |Moved(s, c, rules).items| > 0 <==> Moves(rules, s, c)
    ensures SetOk(rules, Moved(s, c, rules))
    ensures |Moved(s, c, rules).items| <= |s.items|
  {
    var m := Moved(s, c, rules);
    MovesIffShifted(rules, s, c);
    forall j | 0 <= j < |m.items| ensures ItemOk(rules, m.items[j]) {
      ShiftedOverMember(s.items, c, rules, m.items[j]);
      var k :| 0 <= k < |s.items| && Symbol(rules, s.items[k]) == Some(c) && m.items[j] == Shift(s.items[k]);
      assert ItemOk(rules, s.items[k]);
    }
  }

  /** Something moves over `c` exactly when some item is shifted over it. */
  lemma MovesIffShifted(rules: seq<Rule>, s: ItemSet, c: MixedChar)
    requires Numbered(rules, s.items)
    ensures Moves(rules, s, c) <==> |ShiftedOver(s.items, c, rules)| > 0
  {
    var m := ShiftedOver(s.items, c, rules);
    if Moves(rules, s, c) {
      var k :| 0 <= k < |s.items| && Symbol(rules, s.items[k]) == Some(c);
      ShiftedOverMember(s.items, c, rules, Shift(s.items[k]));
    } else if |m| > 0 {
      ShiftedOverMember(s.items, c, rules, m[0]);
    }
  }

  /** One more item looked at by `transitions`: shifted in when its symbol is `c`. */
  lemma TransitionStep(items: seq<Item>, k: nat, c: MixedChar, rules: seq<Rule>, newSet: ItemSet)
    requires Numbered(rules, items) && k < |items|
    requires newSet.items == ShiftedOver(items[..k], c, rules) && newSet.symbols == SymbolsOf(rules, newSet.items)
    ensures var next := if Symbol(rules, items[k]) == Some(c) then AddItem(newSet, rules, Shift(items[k])) else newSet;
      next.items == ShiftedOver(items[..k + 1], c, rules) && next.symbols == SymbolsOf(rules, next.items)
  {
    assert items[..k + 1][..k] == items[..k];
    if Symbol(rules, items[k]) == Some(c) {
      SymbolsOfSnoc(rules, newSet.items, Shift(items[k]));
    }
  }

  /** After the last item the set built is the transition, empty exactly when nothing moves. */
  lemma TransitionsDone(s: ItemSet, c: MixedChar, rules: seq<Rule>, newSet: ItemSet)
    requires Numbered(rules, s.items)
    requires newSet.items == ShiftedOver(s.items[..|s.items|], c, rules)
    requires newSet.symbols == SymbolsOf(rules, newSet.items)
    ensures newSet == Moved(s, c, rules)
    ensures |newSet.items| == 0 <==> !Moves(rules, s, c)
  {
    assert s.items[..|s.items|] == s.items;
    MovesIffShifted(rules, s, c);
  }

  /** The loop of `transitions`: every item whose symbol is `c`, shifted and added in its order. */
  method ShiftAll(s: ItemSet, c: MixedChar, rules: seq<Rule>) returns (newSet: ItemSet)
    requires Numbered(rules, s.items)
    ensures newSet.items == ShiftedOver(s.items[..|s.items|], c, rules)
    ensures newSet.symbols == SymbolsOf(rules, newSet.items)
  {
    newSet := Empty();
    for k := 0 to |s.items|
      invariant newSet.items == ShiftedOver(s.items[..k], c, rules)
      invariant newSet.symbols == SymbolsOf(rules, newSet.items)
    {
      TransitionStep(s.items, k, c, rules, newSet);
      if Symbol(rules, s.items[k]) == Some(c) {
        newSet := AddItem(newSet, rules, Shift(s.items[k]));
      }
    }
  }

  /** `transitions`: the items whose symbol is `c`, shifted, in their order, or `None` when there
      are none. */
  method Transitions(s: ItemSet, c: MixedChar, rules: seq<Rule>) returns (r: Option<ItemSet>)
    requires Numbered(rules, s.items)
    ensures r.None? <==> !Moves(rules, s, c)
    ensures r.Some? ==> r.value == Moved(s, c, rules)
  {
    var newSet := ShiftAll(s, c, rules);
    TransitionsDone(s, c, rules, newSet);
    r := if |newSet.items| == 0 then None else Some(newSet);
  }

  // ---------------------------------------------------------------------------------------------
  // `is_previous` and `reduce`

  /** `otherItem` is `item` with the dot one step further. */
  predicate Precedes(item: Item, otherItem: Item) {
    item.dot + 1 == otherItem.dot && item.ruleNumber == otherItem.ruleNumber
  }

  /** Some item of `others` is `item` one step further. */
  predicate HasNext(item: Item, others: seq<Item>) {
    exists j :: 0 <= j < |others| && Precedes(item, others[j])
  }

  /** The position of the first item of `items` that some item of `others` follows. */
  function FirstLinked(items: seq<Item>, others: seq<Item>): (r: Option<nat>)
    ensures r.None? <==> forall k :: 0 <= k < |items| ==> !HasNext(items[k], others)
    ensures r.Some? ==> r.value < |items| && HasNext(items[r.value], others)
    ensures r.Some? ==> forall k :: 0 <= k < r.value ==> !HasNext(items[k], others)
    decreases |items|
  {
    if items == [] then None
    else if HasNext(items[0], others) then Some(0)
    else
      match FirstLinked(items[1..], others)
      case None => None
      case Some(k) => Some(k + 1)
  }

  /** The `unwrap` in `is_previous` is safe: an item that some item of `other` follows one step
      further has a symbol after its dot. */
  predicate SafeLinks(rules: seq<Rule>, s: ItemSet, other: ItemSet)
    requires Numbered(rules, s.items)
  {
    forall i, j :: 0 <= i < |s.items| && 0 <= j < |other.items| && Precedes(s.items[i], other.items[j]) ==>
      s.items[i].dot < |rules[s.items[i].ruleNumber].output|
  }

  /** When `other` is well-formed its items end no later than their rules, so every link is safe. */
  lemma SafeWhenOk(rules: seq<Rule>, s: ItemSet, other: ItemSet)
    requires Numbered(rules, s.items) && SetOk(rules, other)
    ensures SafeLinks(rules, s, other)
  {
    forall i, j | 0 <= i < |s.items| && 0 <= j < |other.items| && Precedes(s.items[i], other.items[j])
      ensures s.items[i].dot < |rules[s.items[i].ruleNumber].output|
    {
      assert ItemOk(rules, other.items[j]);
    }
  }

  /** What `is_previous` returns: the symbol after the dot of the first item of `s` that an item of
      `other` follows, or nothing. */
  function Previous(s: ItemSet, rules: seq<Rule>, other: ItemSet): (r: Option<MixedChar>)
    requires Numbered(rules, s.items) && SafeLinks(rules, s, other)
    ensures r.None? <==> forall k :: 0 <= k < |s.items| ==> !HasNext(s.items[k], other.items)
    ensures r.Some? ==> exists k :: 0 <= k < |s.items| && HasNext(s.items[k], other.items) && Symbol(rules, s.items[k]) == r
  {
    match FirstLinked(s.items, other.items)
    case None => None
    case Some(k) => Symbol(rules, s.items[k])
  }

  /** `is_previous`: both loops in item order, stopping at the first linked pair. */
  method IsPrevious(s: ItemSet, rules: seq<Rule>, other: ItemSet) returns (r: Option<MixedChar>)
    requires Numbered(rules, s.items) && SafeLinks(rules, s, other)
    ensures r == Previous(s, rules, other)
  {
    for i := 0 to |s.items|
      invariant forall k :: 0 <= k < i ==> !HasNext(s.items[k], other.items)
    {
      var item := s.items[i];
      for j := 0 to |other.items|
        invariant forall l :: 0 <= l < j ==> !Precedes(item, other.items[l])
      {
        var otherItem := other.items[j];
        if item.dot + 1 == otherItem.dot && item.ruleNumber == otherItem.ruleNumber {
          assert HasNext(s.items[i], other.items);
          assert FirstLinked(s.items, other.items) == Some(i);
          return Some(Symbol(rules, item).value);
        }
      }
    }
    return None;
  }

  /** Linking recovers the label: if every item of `other` past its first symbol is a shift over `c`
      of an item of `t`, then the symbol `is_previous` finds from any `s` to `other` is `c`. */
  lemma PreviousIsLabel(rules: seq<Rule>, s: ItemSet, t: ItemSet, c: MixedChar, other: ItemSet)
    requires Numbered(rules, s.items) && Numbered(rules, t.items) && SafeLinks(rules, s, other)
    requires forall j :: 0 <= j < |other.items| && other.items[j].dot >= 1 ==>
      other.items[j] in ShiftedOver(t.items, c, rules)
    ensures Previous(s, rules, other).None? || Previous(s, rules, other) == Some(c)
  {
    var f := FirstLinked(s.items, other.items);
    if f.Some? {
      var k := f.value;
      var j :| 0 <= j < |other.items| && Precedes(s.items[k], other.items[j]);
      ShiftedOverMember(t.items, c, rules, other.items[j]);
      var m :| 0 <= m < |t.items| && Symbol(rules, t.items[m]) == Some(c) && other.items[j] == Shift(t.items[m]);
      assert s.items[k] == t.items[m];
    }
  }

  /** A set that holds the transition of `s` over `c`, plus items at dot 0 only, is linked from `s`
      by exactly `c`. */
  lemma LinkedToMoved(rules: seq<Rule>, s: ItemSet, c: MixedChar, other: ItemSet)
    requires Numbered(rules, s.items) && SafeLinks(rules, s, other) && Moves(rules, s, c)
    requires forall x :: x in ShiftedOver(s.items, c, rules) ==> x in other.items
    requires forall j :: 0 <= j < |other.items| && other.items[j].dot >= 1 ==>
      other.items[j] in ShiftedOver(s.items, c, rules)
    ensures Previous(s, rules, other) == Some(c)
  {
    var k :| 0 <= k < |s.items| && Symbol(rules, s.items[k]) == Some(c);
    ShiftedOverMember(s.items, c, rules, Shift(s.items[k]));
    var j :| 0 <= j < |other.items| && other.items[j] == Shift(s.items[k]);
    assert Precedes(s.items[k], other.items[j]);
    PreviousIsLabel(rules, s, s, c, other);
  }

  /** The position of the first item of `items` whose dot is at the end. */
  function FirstEnd(items: seq<Item>, rules: seq<Rule>): (r: Option<nat>)
    requires Numbered(rules, items)
    ensures r.None? <==> forall k :: 0 <= k < |items| ==> !IsEnd(rules, items[k])
    ensures r.Some? ==> r.value < |items| && IsEnd(rules, items[r.value])
    ensures r.Some? ==> forall k :: 0 <= k < r.value ==> !IsEnd(rules, items[k])
    decreases |items|
  {
    if items == [] then None
    else if IsEnd(rules, items[0]) then Some(0)
    else
      match FirstEnd(items[1..], rules)
      case None => None
      case Some(k) => Some(k + 1)
  }

  /** What `reduce` returns: the dot and the clause of the first end item, the dot being the length
      of its rule. */
  function ReduceOf(s: ItemSet, rules: seq<Rule>): (r: Option<(nat, Variable)>)
    requires Numbered(rules, s.items)
    ensures r.None? <==> FirstEnd(s.items, rules).None?
    ensures r.Some? ==> var rule := rules[s.items[FirstEnd(s.items, rules).value].ruleNumber];
      r.value == (|rule.output|, rule.clause)
  {
    match FirstEnd(s.items, rules)
    case None => None
    case Some(k) => Some((s.items[k].dot, rules[s.items[k].ruleNumber].clause))
  }

  /** `reduce`: the items in order, stopping at the first end item. */
  method Reduce(s: ItemSet, rules: seq<Rule>) returns (r: Option<(nat, Variable)>)
    requires Numbered(rules, s.items)
    ensures r == ReduceOf(s, rules)
  {
    for k := 0 to |s.items|
      invariant forall l :: 0 <= l < k ==> !IsEnd(rules, s.items[l])
    {
      var item := s.items[k];
      if IsEnd(rules, item) {
        assert FirstEnd(s.items, rules) == Some(k);
        return Some((item.dot, rules[item.ruleNumber].clause));
      }
    }
    return None;
  }

  // ---------------------------------------------------------------------------------------------
  // The closure `generate_next` adds to a state

  /** The rules `ks` added one after another at dot 0, as the kernel-list loop of `generate_next`
      does: the old items, then one item per number, in order. */
  function AddRules(s: ItemSet, rules: seq<Rule>, ks: seq<nat>): (r: ItemSet)
    requires forall t :: 0 <= t < |ks| ==> ks[t] < |rules|
    ensures |r.items| == |s.items| + |ks| && r.items[..|s.items|] == s.items
    ensures forall t :: 0 <= t < |ks| ==> r.items[|s.items| + t] == Item(ks[t], 0)
  {
    if ks == [] then s
    else
      var k := ks[|ks| - 1];
      var rest := AddRules(s, rules, ks[..|ks| - 1]);
      assert forall t :: 0 <= t < |ks| - 1 ==> ks[..|ks| - 1][t] == ks[t];
      AddRuleAt(rest, rules[k], 0, k)
  }

  /** Adding rules of the grammar at dot 0 keeps a set well-formed. */
  lemma {:induction false} AddRulesOk(rules: seq<Rule>, s: ItemSet, ks: seq<nat>)
    requires SetOk(rules, s)
    requires forall t :: 0 <= t < |ks| ==> ks[t] < |rules|
    ensures SetOk(rules, AddRules(s, rules, ks))
    decreases |ks|
  {
    if ks != [] {
      var init := ks[..|ks| - 1];
      AddRulesOk(rules, s, init);
      AddRuleOk(rules, AddRules(s, rules, init), 0, ks[|ks| - 1]);
    }
  }

  /** The loop over the kernel list: `add_rule` at dot 0 for each number in turn. */
  method AddEach(s: ItemSet, rules: seq<Rule>, ks: seq<nat>) returns (r: ItemSet)
    requires forall t :: 0 <= t < |ks| ==> ks[t] < |rules|
    ensures r == AddRules(s, rules, ks)
  {
    r := s;
    for t := 0 to |ks|
      invariant r == AddRules(s, rules, ks[..t])
    {
      assert ks[..t + 1][..t] == ks[..t];
      r := AddRuleAt(r, rules[ks[t]], 0, ks[t]);
    }
    assert ks[..|ks|] == ks;
  }

  /** `ks` is what `gets_rule` returns for the variables among `order`: every rule whose clause lies
      in a group reached from the group of one of them, each once. */
  ghost predicate ClosedBy(g: RD.RuleGraph, order: seq<MixedChar>, ks: seq<nat>) {
    && (forall r: nat :: r in ks <==>
          (r < |g.rules| && g.rules[r].clause in g.indexing &&
           RD.ReachedGroup(g, OldSyntax.VariablesIn(order), g.indexing[g.rules[r].clause])))
    && RD.Distinct(ks)
  }

  /** Every variable after a dot of `s` has a rule. */
  ghost predicate SymbolsHaveRules(rules: seq<Rule>, s: ItemSet) {
    forall u :: Var(u) in s.symbols ==> RD.IsClause(rules, u)
  }

  /** The starting sets after state 0, which the loop closes, name only variables with rules. */
  ghost predicate StartLookups(rules: seq<Rule>, start: seq<ItemSet>) {
    forall i {:trigger SymbolsHaveRules(rules, start[i])} :: 1 <= i < |start| ==> SymbolsHaveRules(rules, start[i])
  }

  /** When every variable after a dot has a rule, the `indexing` lookup of `gets_rule` finds each. */
  lemma SymbolsAreClauses(g: RD.RuleGraph, rules: seq<Rule>, s: ItemSet, order: seq<MixedChar>)
    requires RD.GroupsOk(g) && g.rules == rules && SymbolsHaveRules(rules, s)
    requires forall x :: x in order <==> x in s.symbols
    ensures forall u :: u in OldSyntax.VariablesIn(order) ==> u in g.indexing
  {
    forall u | u in OldSyntax.VariablesIn(order) ensures u in g.indexing {
      assert Var(u) in s.symbols;
      var r :| r in rules && r.clause == u;
      assert u in g.variables;
    }
  }

  /** In a well-formed set whose items are all past the start of their rules, a variable after a dot
      stands after the first symbol of an output, so a grammar closed there gives it a rule. */
  lemma ShiftedSymbolsHaveRules(rules: seq<Rule>, s: ItemSet)
    requires RD.ShiftedClosed(rules) && SetOk(rules, s)
    requires forall k :: 0 <= k < |s.items| ==> 1 <= s.items[k].dot
    ensures SymbolsHaveRules(rules, s)
  {
    forall u | Var(u) in s.symbols ensures RD.IsClause(rules, u) {
      SymbolsOfMember(rules, s.items, Var(u));
      var k :| 0 <= k < |s.items| && Symbol(rules, s.items[k]) == Some(Var(u));
      var item := s.items[k];
      assert rules[item.ruleNumber].output[item.dot] == Var(u);
    }
  }

  // ---------------------------------------------------------------------------------------------
  // The transitions of one state

  /** The transitions over `syms`, in that order, of those symbols something moves over. */
  function KidsOf(s: ItemSet, syms: seq<MixedChar>, rules: seq<Rule>): (r: seq<ItemSet>)
    requires Numbered(rules, s.items)
    ensures |r| <= |syms|
  {
    if syms == [] then []
    else
      var c := syms[|syms| - 1];
      var rest := KidsOf(s, syms[..|syms| - 1], rules);
      if Moves(rules, s, c) then rest + [Moved(s, c, rules)] else rest
  }

  /** A kid is the transition over one of `syms` that something moves over. */
  lemma {:induction false} KidsOfMember(s: ItemSet, syms: seq<MixedChar>, rules: seq<Rule>, x: ItemSet)
    requires Numbered(rules, s.items)
    ensures x in KidsOf(s, syms, rules) <==> exists c :: c in syms && Moves(rules, s, c) && x == Moved(s, c, rules)
    decreases |syms|
  {
    if syms != [] {
      var init := syms[..|syms| - 1];
      assert syms == init + [syms[|syms| - 1]];
      KidsOfMember(s, init, rules, x);
    }
  }

  /** Every kid of a well-formed set is well-formed, not empty, no larger than its parent and
      deeper into its rules. */
  lemma KidsOk(rules: seq<Rule>, s: ItemSet, syms: seq<MixedChar>, bound: nat)
    requires SetOk(rules, s) && MaxLen(rules) <= bound
    ensures forall x :: x in KidsOf(s, syms, rules) ==>
      && SetOk(rules, x) && 0 < |x.items| <= |s.items|
      && Depth(x, bound) < Depth(s, bound)
  {
    forall x | x in KidsOf(s, syms, rules)
      ensures SetOk(rules, x) && 0 < |x.items| <= |s.items| && Depth(x, bound) < Depth(s, bound)
    {
      KidsOfMember(s, syms, rules, x);
      var c :| c in syms && Moves(rules, s, c) && x == Moved(s, c, rules);
      MovedOk(rules, s, c);
      MovedDeeper(rules, s, c, bound);
    }
  }

  /** The loop over the symbols in `generate_next`: `transitions` for each, keeping those that are
      something. */
  method Children(s: ItemSet, syms: seq<MixedChar>, rules: seq<Rule>) returns (kids: seq<ItemSet>)
    requires Numbered(rules, s.items)
    ensures kids == KidsOf(s, syms, rules)
  {
    kids := [];
    for k := 0 to |syms|
      invariant kids == KidsOf(s, syms[..k], rules)
    {
      assert syms[..k + 1][..k] == syms[..k];
      var next := Transitions(s, syms[k], rules);
      if next.Some? {
        kids := kids + [next.value];
      }
    }
    assert syms[..|syms|] == syms;
  }

  // ---------------------------------------------------------------------------------------------
  // Why `generate_next` stops: every appended set is deeper into its rules than its parent

  /** The longest output of the grammar. */
  function MaxLen(rules: seq<Rule>): (n: nat)
    ensures forall k :: 0 <= k < |rules| ==> |rules[k].output| <= n
  {
    if rules == [] then 0
    else
      var rest := MaxLen(rules[1..]);
      assert forall k :: 1 <= k < |rules| ==> rules[k] == rules[1..][k - 1];
      if |rules[0].output| > rest then |rules[0].output| else rest
  }

  /** The largest set of `sets`. */
  function MaxItems(sets: seq<ItemSet>): (n: nat)
    ensures forall j :: 0 <= j < |sets| ==> |sets[j].items| <= n
  {
    if sets == [] then 0
    else
      var rest := MaxItems(sets[1..]);
      assert forall j :: 1 <= j < |sets| ==> sets[j] == sets[1..][j - 1];
      if |sets[0].items| > rest then |sets[0].items| else rest
  }

  /** The least dot of `items`, or `bound` if that is less. */
  function MinDot(items: seq<Item>, bound: nat): (d: nat)
    ensures d <= bound
    ensures forall k :: 0 <= k < |items| ==> d <= items[k].dot
    ensures d == bound || exists k :: 0 <= k < |items| && items[k].dot == d
  {
    if items == [] then bound
    else
      var init, last := items[..|items| - 1], items[|items| - 1];
      var rest := MinDot(init, bound);
      assert forall k :: 0 <= k < |init| ==> init[k] == items[k];
      if last.dot < rest then last.dot else rest
  }

  /** How far the least advanced item of `s` is from the longest output. */
  function Depth(s: ItemSet, bound: nat): nat {
    bound - MinDot(s.items, bound)
  }

  /** A transition is deeper than the set it leaves. */
  lemma MovedDeeper(rules: seq<Rule>, s: ItemSet, c: MixedChar, bound: nat)
    requires Numbered(rules, s.items) && Moves(rules, s, c) && MaxLen(rules) <= bound
    ensures Depth(Moved(s, c, rules), bound) < Depth(s, bound)
  {
    var k :| 0 <= k < |s.items| && Symbol(rules, s.items[k]) == Some(c);
    var d := MinDot(s.items, bound);
    assert d < bound;
    var m := ShiftedOver(s.items, c, rules);
    forall j | 0 <= j < |m| ensures m[j].dot > d {
      ShiftedOverMember(s.items, c, rules, m[j]);
    }
  }

  /** A bound on the number of sets a set of depth `h` can still give rise to, itself included, when
      every set has fewer than `n` symbols. */
  function Tower(h: nat, n: nat): (t: nat)
    ensures t >= 1
  {
    if h == 0 then 1 else 1 + n * Tower(h - 1, n)
  }

  lemma {:induction false} TowerMono(a: nat, b: nat, n: nat)
    requires a <= b
    ensures Tower(a, n) <= Tower(b, n)
    decreases b
  {
    if a < b {
      TowerMono(a, b - 1, n);
      var t := Tower(b - 1, n);
      assert n == 0 ==> Tower(b, n) == 1 && t == 1;
      assert n >= 1 ==> n * t >= t;
    }
  }

  /** The sets still to be looked at, each weighted by the sets it can give rise to. */
  function Pot(sets: seq<ItemSet>, i: nat, bound: nat, n: nat): nat
    decreases |sets| - i
  {
    if i >= |sets| then 0 else Tower(Depth(sets[i], bound), n) + Pot(sets, i + 1, bound, n)
  }

  lemma {:induction false} PotShift(a: seq<ItemSet>, b: seq<ItemSet>, j: nat, bound: nat, n: nat)
    requires j <= |b|
    ensures Pot(a + b, |a| + j, bound, n) == Pot(b, j, bound, n)
    decreases |b| - j
  {
    if j < |b| {
      assert (a + b)[|a| + j] == b[j];
      PotShift(a, b, j + 1, bound, n);
    }
  }

  lemma {:induction false} PotAppend(a: seq<ItemSet>, b: seq<ItemSet>, i: nat, bound: nat, n: nat)
    requires i <= |a|
    ensures Pot(a + b, i, bound, n) == Pot(a, i, bound, n) + Pot(b, 0, bound, n)
    decreases |a| - i
  {
    if i < |a| {
      assert (a + b)[i] == a[i];
      PotAppend(a, b, i + 1, bound, n);
    } else {
      PotShift(a, b, 0, bound, n);
    }
  }

  lemma {:induction false} PotAbove(sets: seq<ItemSet>, i: nat, k: nat, x: ItemSet, bound: nat, n: nat)
    requires k < i && k < |sets|
    ensures Pot(sets[k := x], i, bound, n) == Pot(sets, i, bound, n)
    decreases |sets| - i
  {
    if i < |sets| {
      PotAbove(sets, i + 1, k, x, bound, n);
    }
  }

  lemma {:induction false} PotShallow(kids: seq<ItemSet>, i: nat, h: nat, bound: nat, n: nat)
    requires i <= |kids|
    requires forall j :: 0 <= j < |kids| ==> Depth(kids[j], bound) <= h
    ensures Pot(kids, i, bound, n) <= (|kids| - i) * Tower(h, n)
    decreases |kids| - i
  {
    if i < |kids| {
      PotShallow(kids, i + 1, h, bound, n);
      TowerMono(Depth(kids[i], bound), h, n);
      MulSucc(|kids| - i - 1, Tower(h, n));
    }
  }

  lemma MulSucc(m: nat, t: nat)
    ensures (m + 1) * t == m * t + t
  {
  }

  lemma MulLe(a: nat, b: nat, t: nat)
    requires a <= b
    ensures a * t <= b * t
  {
  }

  /** Every kid is deeper than its parent. */
  lemma KidsDeeper(rules: seq<Rule>, s: ItemSet, syms: seq<MixedChar>, bound: nat)
    requires SetOk(rules, s) && MaxLen(rules) <= bound
    ensures forall j :: 0 <= j < |KidsOf(s, syms, rules)| ==> Depth(KidsOf(s, syms, rules)[j], bound) < Depth(s, bound)
  {
    var kids := KidsOf(s, syms, rules);
    forall j | 0 <= j < |kids| ensures Depth(kids[j], bound) < Depth(s, bound) {
      KidsOfMember(s, syms, rules, kids[j]);
      var c :| c in syms && Moves(rules, s, c) && kids[j] == Moved(s, c, rules);
      MovedDeeper(rules, s, c, bound);
    }
  }

  /** `k` weights of at most `t` each weigh less than `1 + n * t` when `k < n`. */
  lemma WeighLess(p: nat, k: nat, n: nat, t: nat)
    requires p <= k * t && k < n
    ensures p < 1 + n * t
  {
    MulLe(k, n - 1, t);
    MulSucc(n - 1, t);
  }

  /** The kids of a set weigh less together than the set itself. */
  lemma KidsWeighLess(rules: seq<Rule>, s: ItemSet, syms: seq<MixedChar>, bound: nat, n: nat)
    requires SetOk(rules, s) && MaxLen(rules) <= bound && |syms| < n
    ensures Pot(KidsOf(s, syms, rules), 0, bound, n) < Tower(Depth(s, bound), n)
  {
    var kids := KidsOf(s, syms, rules);
    if kids != [] {
      KidsDeeper(rules, s, syms, bound);
      var h := Depth(s, bound);
      assert Depth(kids[0], bound) < h;
      PotShallow(kids, 0, h - 1, bound, n);
      WeighLess(Pot(kids, 0, bound, n), |kids|, n, Tower(h - 1, n));
      TowerStep(h, n);
    }
  }

  lemma TowerStep(h: nat, n: nat)
    requires h >= 1
    ensures Tower(h, n) == 1 + n * Tower(h - 1, n)
  {
  }

  /** Looking at set `i` lowers the weight of what is left: its kids together weigh less than it. */
  lemma StepDecreases(rules: seq<Rule>, sets: seq<ItemSet>, i: nat, syms: seq<MixedChar>, bound: nat, n: nat)
    requires i < |sets| && SetOk(rules, sets[i]) && MaxLen(rules) <= bound
    requires |syms| <= |sets[i].items| < n
    ensures Pot(sets + KidsOf(sets[i], syms, rules), i + 1, bound, n) < Pot(sets, i, bound, n)
  {
    PotAppend(sets, KidsOf(sets[i], syms, rules), i + 1, bound, n);
    KidsWeighLess(rules, sets[i], syms, bound, n);
  }

  // ---------------------------------------------------------------------------------------------
  // `generate_next`

  /** The kids of the first `|orders|` sets of `P`, each set's over its own symbols in its own order,
      one set after another: what the loop of `generate_next` appends. */
  function Spawned(P: seq<ItemSet>, orders: seq<seq<MixedChar>>, rules: seq<Rule>): (r: seq<ItemSet>)
    requires |orders| <= |P| && forall j :: 0 <= j < |orders| ==> Numbered(rules, P[j].items)
  {
    if orders == [] then []
    else
      var m := |orders| - 1;
      Spawned(P, orders[..m], rules) + KidsOf(P[m], orders[m], rules)
  }

  /** Only the sets already looked at matter. */
  lemma {:induction false} SpawnedLonger(P: seq<ItemSet>, more: seq<ItemSet>, orders: seq<seq<MixedChar>>, rules: seq<Rule>)
    requires |orders| <= |P| && forall j :: 0 <= j < |orders| ==> Numbered(rules, P[j].items)
    ensures Spawned(P + more, orders, rules) == Spawned(P, orders, rules)
    decreases |orders|
  {
    if orders != [] {
      var m := |orders| - 1;
      assert (P + more)[m] == P[m];
      SpawnedLonger(P, more, orders[..m], rules);
    }
  }

  /** A spawned set is the transition of one of the sets looked at over one of its symbols. */
  lemma {:induction false} SpawnedMember(P: seq<ItemSet>, orders: seq<seq<MixedChar>>, rules: seq<Rule>, x: ItemSet)
    requires |orders| <= |P| && forall j :: 0 <= j < |orders| ==> Numbered(rules, P[j].items)
    ensures x in Spawned(P, orders, rules) <==>
      exists m, c :: 0 <= m < |orders| && c in orders[m] && Moves(rules, P[m], c) && x == Moved(P[m], c, rules)
    decreases |orders|
  {
    if orders != [] {
      var m := |orders| - 1;
      var init := orders[..m];
      var earlier, kids := Spawned(P, init, rules), KidsOf(P[m], orders[m], rules);
      assert Spawned(P, orders, rules) == earlier + kids;
      SpawnedMember(P, init, rules, x);
      KidsOfMember(P[m], orders[m], rules, x);
      if x in earlier {
        var m', c :| 0 <= m' < m && c in init[m'] && Moves(rules, P[m'], c) && x == Moved(P[m'], c, rules);
        assert init[m'] == orders[m'];
      } else if x in kids {
        var c :| c in orders[m] && Moves(rules, P[m], c) && x == Moved(P[m], c, rules);
      }
      if exists m', c :: 0 <= m' < |orders| && c in orders[m'] && Moves(rules, P[m'], c) && x == Moved(P[m'], c, rules) {
        var m', c :| 0 <= m' < |orders| && c in orders[m'] && Moves(rules, P[m'], c) && x == Moved(P[m'], c, rules);
        if m' < m {
          assert init[m'] == orders[m'];
          assert x in earlier;
        } else {
          assert m' == m;
          assert c in orders[m] && Moves(rules, P[m], c) && x == Moved(P[m], c, rules);
        }
      }
    }
  }

  /** `order` is the iteration order of the `BTreeSet` `symbols`: each symbol once, ascending. */
  ghost predicate Enumerates(order: seq<MixedChar>, symbols: set<MixedChar>) {
    InOrder(order) && |order| == |symbols| && forall x :: x in order <==> x in symbols
  }

  /** State `j` once looked at: `order` enumerates the symbols it had, and, unless it is state 0,
      it ends as `pre` with the rules `ks` that `gets_rule` gives for the variables of `order`. */
  ghost predicate Processed(rules: seq<Rule>, g: RD.RuleGraph, j: nat, pre: ItemSet, order: seq<MixedChar>,
                            ks: seq<nat>, final: ItemSet) {
    && Enumerates(order, pre.symbols)
    && if j == 0 then ks == [] && final == pre
       else
         && ClosedBy(g, order, ks)
         && (forall t :: 0 <= t < |ks| ==> ks[t] < |rules|)
         && final == AddRules(pre, rules, ks)
  }

  /** Every set of `sets` is well-formed. */
  ghost predicate AllOk(rules: seq<Rule>, sets: seq<ItemSet>) {
    forall j :: 0 <= j < |sets| ==> SetOk(rules, sets[j])
  }

  /** `P` is `start` followed by the kids of its first `|orders|` sets. */
  ghost predicate Grown(start: seq<ItemSet>, rules: seq<Rule>, P: seq<ItemSet>, orders: seq<seq<MixedChar>>) {
    && |start| <= |P| && |orders| <= |P| && AllOk(rules, P)
    && P[..|start|] == start
    && P[|start|..] == Spawned(P, orders, rules)
  }

  /** The sets from `i` on are as they were appended: not yet closed. */
  ghost predicate Pending(sets: seq<ItemSet>, i: nat, P: seq<ItemSet>) {
    && |P| == |sets| && i <= |sets|
    && forall j :: i <= j < |sets| ==> sets[j] == P[j]
  }

  /** The first `i` sets have been looked at, in order. */
  ghost predicate AllProcessed(rules: seq<Rule>, g: RD.RuleGraph, i: nat, P: seq<ItemSet>, orders: seq<seq<MixedChar>>,
                               kernels: seq<seq<nat>>, sets: seq<ItemSet>) {
    && i <= |P| && i <= |sets| && |orders| == i && |kernels| == i
    && forall j :: 0 <= j < i ==> Processed(rules, g, j, P[j], orders[j], kernels[j], sets[j])
  }

  /** What `generate_next` leaves.  `P` holds every set as it was before its closure was added:
      `start` and then the kids of every set, in turn; every set has been looked at. */
  ghost predicate Generated(start: seq<ItemSet>, rules: seq<Rule>, g: RD.RuleGraph, sets: seq<ItemSet>,
                            P: seq<ItemSet>, orders: seq<seq<MixedChar>>, kernels: seq<seq<nat>>) {
    && AllOk(rules, sets)
    && Grown(start, rules, P, orders)
    && Pending(sets, |sets|, P)
    && AllProcessed(rules, g, |sets|, P, orders, kernels, sets)
  }

  // The loop of `generate_next` carries each part of its invariant closed: stated under a trigger
  // on a predicate of its own, so that the solver opens only the part a step works on.

  ghost predicate OpenOk(k: nat) { k == 0 }
  ghost predicate OpenGrown(k: nat) { k == 0 }
  ghost predicate OpenPending(k: nat) { k == 0 }
  ghost predicate OpenProcessed(k: nat) { k == 0 }

  ghost predicate SealedOk(rules: seq<Rule>, sets: seq<ItemSet>) {
    forall k {:trigger OpenOk(k)} :: OpenOk(k) ==> AllOk(rules, sets)
  }

  ghost predicate SealedGrown(start: seq<ItemSet>, rules: seq<Rule>, P: seq<ItemSet>, orders: seq<seq<MixedChar>>) {
    forall k {:trigger OpenGrown(k)} :: OpenGrown(k) ==> Grown(start, rules, P, orders)
  }

  ghost predicate SealedPending(sets: seq<ItemSet>, i: nat, P: seq<ItemSet>) {
    forall k {:trigger OpenPending(k)} :: OpenPending(k) ==> Pending(sets, i, P)
  }

  ghost predicate SealedProcessed(rules: seq<Rule>, g: RD.RuleGraph, i: nat, P: seq<ItemSet>, orders: seq<seq<MixedChar>>,
                                  kernels: seq<seq<nat>>, sets: seq<ItemSet>) {
    forall k {:trigger OpenProcessed(k)} :: OpenProcessed(k) ==> AllProcessed(rules, g, i, P, orders, kernels, sets)
  }

  /** The set about to be looked at is well-formed and as it was appended. */
  lemma Current(rules: seq<Rule>, sets: seq<ItemSet>, i: nat, P: seq<ItemSet>)
    requires SealedOk(rules, sets) && SealedPending(sets, i, P) && i < |sets|
    ensures SetOk(rules, sets[i]) && |P| == |sets| && sets[i] == P[i]
  {
    assert OpenOk(0) && OpenPending(0);
  }

  /** The set about to be closed names only variables with rules: it is a starting set, or it was
      appended as a transition, whose items are past the start of their rules. */
  lemma LookedUp(start: seq<ItemSet>, rules: seq<Rule>, g: RD.RuleGraph, sets: seq<ItemSet>, i: nat, P: seq<ItemSet>,
                  orders: seq<seq<MixedChar>>, syms: seq<MixedChar>)
    requires StartLookups(rules, start) && RD.ShiftedClosed(rules) && RD.GroupsOk(g) && g.rules == rules
    requires SealedOk(rules, sets) && SealedPending(sets, i, P) && SealedGrown(start, rules, P, orders)
    requires 1 <= i < |sets| && |orders| == i
    requires forall x :: x in syms <==> x in sets[i].symbols
    ensures forall u :: u in OldSyntax.VariablesIn(syms) ==> u in g.indexing
  {
    Current(rules, sets, i, P);
    assert OpenGrown(0);
    if i < |start| {
      assert P[..|start|][i] == P[i];
    } else {
      assert P[i] == P[|start|..][i - |start|];
      SpawnedMember(P, orders, rules, P[i]);
      var m, c :| 0 <= m < |orders| && c in orders[m] && Moves(rules, P[m], c) && P[i] == Moved(P[m], c, rules);
      ShiftedSymbolsHaveRules(rules, P[i]);
    }
    SymbolsAreClauses(g, rules, sets[i], syms);
  }

  /** The kids of a well-formed set are well-formed. */
  lemma KidsAllOk(rules: seq<Rule>, s: ItemSet, syms: seq<MixedChar>)
    requires SetOk(rules, s)
    ensures AllOk(rules, KidsOf(s, syms, rules))
  {
    var kids := KidsOf(s, syms, rules);
    KidsOk(rules, s, syms, MaxLen(rules));
    forall j | 0 <= j < |kids| ensures SetOk(rules, kids[j]) {
      assert kids[j] in kids;
    }
  }

  /** Well-formed sets appended to well-formed sets, one of them replaced by a well-formed set. */
  lemma AppendOk(rules: seq<Rule>, sets: seq<ItemSet>, kids: seq<ItemSet>, i: nat, x: ItemSet)
    requires AllOk(rules, sets) && AllOk(rules, kids) && i < |sets| && SetOk(rules, x)
    ensures AllOk(rules, sets + kids) && AllOk(rules, (sets + kids)[i := x])
  {
    assert forall j :: |sets| <= j < |sets| + |kids| ==> (sets + kids)[j] == kids[j - |sets|];
  }

  /** Whatever is appended and closed in one step is well-formed. */
  lemma StepOk(rules: seq<Rule>, sets: seq<ItemSet>, i: nat, syms: seq<MixedChar>, closed: ItemSet)
    requires SealedOk(rules, sets) && i < |sets| && SetOk(rules, sets[i]) && SetOk(rules, closed)
    ensures SealedOk(rules, (sets + KidsOf(sets[i], syms, rules))[i := closed])
  {
    assert OpenOk(0);
    var kids := KidsOf(sets[i], syms, rules);
    KidsAllOk(rules, sets[i], syms);
    AppendOk(rules, sets, kids, i, closed);
    forall k | OpenOk(k) ensures AllOk(rules, (sets + kids)[i := closed]) {
    }
  }

  /** The spawned sets grow by the kids of the next set looked at. */
  lemma SpawnedStep(start: seq<ItemSet>, rules: seq<Rule>, P: seq<ItemSet>, orders: seq<seq<MixedChar>>,
                    syms: seq<MixedChar>, kids: seq<ItemSet>)
    requires |start| <= |P| && |orders| < |P| && AllOk(rules, P)
    requires P[|start|..] == Spawned(P, orders, rules)
    requires kids == KidsOf(P[|orders|], syms, rules)
    ensures (P + kids)[|start|..] == Spawned(P + kids, orders + [syms], rules)
  {
    var i := |orders|;
    assert forall j :: 0 <= j < |orders| ==> Numbered(rules, P[j].items) by {
      assert forall j :: 0 <= j < |orders| ==> SetOk(rules, P[j]);
    }
    assert (orders + [syms])[..i] == orders;
    SpawnedLonger(P, kids, orders, rules);
    assert (P + kids)[|start|..] == P[|start|..] + kids;
  }

  /** The kids of one step, appended, extend what `P` has spawned by the kids of set `|orders|`. */
  lemma StepGrown(start: seq<ItemSet>, rules: seq<Rule>, P: seq<ItemSet>, orders: seq<seq<MixedChar>>,
                  syms: seq<MixedChar>)
    requires SealedGrown(start, rules, P, orders) && |orders| < |P| && SetOk(rules, P[|orders|])
    ensures SealedGrown(start, rules, P + KidsOf(P[|orders|], syms, rules), orders + [syms])
  {
    assert OpenGrown(0);
    var kids := KidsOf(P[|orders|], syms, rules);
    KidsAllOk(rules, P[|orders|], syms);
    AppendOk(rules, P, kids, |orders|, P[|orders|]);
    SpawnedStep(start, rules, P, orders, syms, kids);
    assert (P + kids)[..|start|] == P[..|start|];
    forall k | OpenGrown(k) ensures Grown(start, rules, P + kids, orders + [syms]) {
    }
  }

  /** The sets after `i` are still as appended. */
  lemma StepPending(sets: seq<ItemSet>, i: nat, P: seq<ItemSet>, kids: seq<ItemSet>, closed: ItemSet)
    requires SealedPending(sets, i, P) && i < |sets|
    ensures SealedPending((sets + kids)[i := closed], i + 1, P + kids)
  {
    assert OpenPending(0);
    var sets', P' := (sets + kids)[i := closed], P + kids;
    assert Pending(sets', i + 1, P');
    forall k | OpenPending(k) ensures Pending(sets', i + 1, P') {
    }
  }

  /** One more set looked at. */
  lemma StepProcessed(rules: seq<Rule>, g: RD.RuleGraph, i: nat, P: seq<ItemSet>, orders: seq<seq<MixedChar>>,
                      kernels: seq<seq<nat>>, sets: seq<ItemSet>, kids: seq<ItemSet>, syms: seq<MixedChar>,
                      ks: seq<nat>, closed: ItemSet)
    requires SealedProcessed(rules, g, i, P, orders, kernels, sets) && i < |P| && i < |sets|
    requires Processed(rules, g, i, P[i], syms, ks, closed)
    ensures SealedProcessed(rules, g, i + 1, P + kids, orders + [syms], kernels + [ks], (sets + kids)[i := closed])
  {
    assert OpenProcessed(0);
    var sets' := (sets + kids)[i := closed];
    forall j | 0 <= j < i
      ensures Processed(rules, g, j, (P + kids)[j], (orders + [syms])[j], (kernels + [ks])[j], sets'[j])
    {
      assert Processed(rules, g, j, P[j], orders[j], kernels[j], sets[j]);
    }
    assert AllProcessed(rules, g, i + 1, P + kids, orders + [syms], kernels + [ks], sets');
    forall k | OpenProcessed(k) ensures AllProcessed(rules, g, i + 1, P + kids, orders + [syms], kernels + [ks], sets') {
    }
  }

  /** Rule numbers taken from the rules are in range. */
  lemma RuleNumbers(ks: seq<nat>, rules: seq<Rule>)
    requires forall r: nat :: r in ks ==> r < |rules|
    ensures forall t :: 0 <= t < |ks| ==> ks[t] < |rules|
  {
    forall t | 0 <= t < |ks| ensures ks[t] < |rules| {
      assert ks[t] in ks;
    }
  }

  /** The sets still to be looked at stay smaller than `n`: kids are no larger than their parent. */
  lemma StepSmall(rules: seq<Rule>, sets: seq<ItemSet>, i: nat, syms: seq<MixedChar>, closed: ItemSet, n: nat)
    requires i < |sets| && SetOk(rules, sets[i])
    requires forall j :: i <= j < |sets| ==> |sets[j].items| < n
    ensures var next := (sets + KidsOf(sets[i], syms, rules))[i := closed];
      forall j :: i + 1 <= j < |next| ==> |next[j].items| < n
  {
    var kids := KidsOf(sets[i], syms, rules);
    KidsOk(rules, sets[i], syms, MaxLen(rules));
    forall j | |sets| <= j < |sets + kids| ensures |(sets + kids)[j].items| < n {
      assert (sets + kids)[j] == kids[j - |sets|] && kids[j - |sets|] in kids;
    }
  }

  /** Before the loop: nothing looked at. */
  lemma Begin(start: seq<ItemSet>, rules: seq<Rule>, g: RD.RuleGraph)
    requires AllOk(rules, start)
    ensures SealedOk(rules, start) && SealedGrown(start, rules, start, [])
    ensures SealedPending(start, 0, start) && SealedProcessed(rules, g, 0, start, [], [], start)
  {
    assert start[..|start|] == start && start[|start|..] == [];
    forall k | OpenGrown(k) ensures Grown(start, rules, start, []) {
    }
  }

  /** After the loop: every set looked at. */
  lemma Finish(start: seq<ItemSet>, rules: seq<Rule>, g: RD.RuleGraph, sets: seq<ItemSet>, i: nat,
               P: seq<ItemSet>, orders: seq<seq<MixedChar>>, kernels: seq<seq<nat>>)
    requires SealedOk(rules, sets) && SealedGrown(start, rules, P, orders)
    requires SealedPending(sets, i, P) && SealedProcessed(rules, g, i, P, orders, kernels, sets)
    requires i >= |sets|
    ensures Generated(start, rules, g, sets, P, orders, kernels)
  {
    assert OpenOk(0) && OpenGrown(0) && OpenPending(0) && OpenProcessed(0);
  }

  /** The loop of `generate_next` over the sets as values: for each set in turn, its transitions over
      its symbols in ascending order are appended, and then, unless it is state 0, the rules
      `gets_rule` gives for the variables among those symbols are added to it at dot 0.  The ghost
      results are the sets before their closures, the symbol orders and the rule lists used. */
  method Generation(start: seq<ItemSet>, rules: seq<Rule>, g: RD.RuleGraph)
    returns (sets: seq<ItemSet>, ghost P: seq<ItemSet>, ghost orders: seq<seq<MixedChar>>, ghost kernels: seq<seq<nat>>)
    requires AllOk(rules, start) && StartLookups(rules, start)
    requires RD.GroupsOk(g) && g.rules == rules && RD.ShiftedClosed(rules)
    ensures Generated(start, rules, g, sets, P, orders, kernels)
  {
    ghost var bound, n := MaxLen(rules), MaxItems(start) + 1;
    sets, P, orders, kernels := start, start, [], [];
    Begin(start, rules, g);
    var i := 0;
    while i < |sets|
      invariant SealedOk(rules, sets) && SealedGrown(start, rules, P, orders)
      invariant SealedPending(sets, i, P) && SealedProcessed(rules, g, i, P, orders, kernels, sets)
      invariant |orders| == i
      invariant forall j :: i <= j < |sets| ==> |sets[j].items| < n
      decreases Pot(sets, i, bound, n)
    {
      Current(rules, sets, i, P);
      var s := sets[i];
      var syms := Ascending(s.symbols);
      var kids := Children(s, syms, rules);
      StepDecreases(rules, sets, i, syms, bound, n);
      var ks := [];
      var closed := s;
      if i != 0 {
        LookedUp(start, rules, g, sets, i, P, orders, syms);
        ks := RD.GetsRule(g, OldSyntax.VariablesIn(syms));
        RuleNumbers(ks, rules);
        closed := AddEach(s, rules, ks);
        AddRulesOk(rules, s, ks);
      }
      StepOk(rules, sets, i, syms, closed);
      StepGrown(start, rules, P, orders, syms);
      StepPending(sets, i, P, kids, closed);
      StepProcessed(rules, g, i, P, orders, kernels, sets, kids, syms, ks, closed);
      PotAbove(sets + kids, i + 1, i, closed, bound, n);
      StepSmall(rules, sets, i, syms, closed, n);
      ghost var next := (sets + kids)[i := closed];
      sets := sets + kids;
      if i != 0 {
        sets := sets[i := closed];
      } else {
        assert sets == next;
      }
      P, orders, kernels := P + kids, orders + [syms], kernels + [ks];
      i := i + 1;
    }
    Finish(start, rules, g, sets, i, P, orders, kernels);
  }

  // ---------------------------------------------------------------------------------------------
  // What `generate_next` produces

  /** Every appended set is the transition of one of the sets, as it was before its closure, over
      a symbol something in it moves over. */
  lemma AppendedAreTransitions(start: seq<ItemSet>, rules: seq<Rule>, g: RD.RuleGraph, sets: seq<ItemSet>,
                               P: seq<ItemSet>, orders: seq<seq<MixedChar>>, kernels: seq<seq<nat>>, j: nat)
    requires Generated(start, rules, g, sets, P, orders, kernels) && |start| <= j < |P|
    ensures exists m, c :: 0 <= m < |P| && Moves(rules, P[m], c) && P[j] == Moved(P[m], c, rules)
  {
    assert P[j] == P[|start|..][j - |start|];
    SpawnedMember(P, orders, rules, P[j]);
  }

  /** Every transition of every set, taken before its closure, is among the appended sets. */
  lemma TransitionsAppended(start: seq<ItemSet>, rules: seq<Rule>, g: RD.RuleGraph, sets: seq<ItemSet>,
                            P: seq<ItemSet>, orders: seq<seq<MixedChar>>, kernels: seq<seq<nat>>, m: nat, c: MixedChar)
    requires Generated(start, rules, g, sets, P, orders, kernels) && m < |P|
    requires Moves(rules, P[m], c)
    ensures exists j :: |start| <= j < |P| && P[j] == Moved(P[m], c, rules)
  {
    assert SetOk(rules, P[m]);
    assert Processed(rules, g, m, P[m], orders[m], kernels[m], sets[m]);
    SymbolsOfMember(rules, P[m].items, c);
    assert c in orders[m];
    SpawnedMember(P, orders, rules, Moved(P[m], c, rules));
    var x := Moved(P[m], c, rules);
    assert x in P[|start|..];
    var t :| 0 <= t < |P[|start|..]| && P[|start|..][t] == x;
    assert P[|start| + t] == x;
  }

  /** An appended set is not empty and every item in it is past its first symbol. */
  lemma AppendedShifted(start: seq<ItemSet>, rules: seq<Rule>, g: RD.RuleGraph, sets: seq<ItemSet>,
                        P: seq<ItemSet>, orders: seq<seq<MixedChar>>, kernels: seq<seq<nat>>, j: nat)
    requires Generated(start, rules, g, sets, P, orders, kernels) && |start| <= j < |P|
    ensures |P[j].items| > 0
    ensures forall k :: 0 <= k < |P[j].items| ==> P[j].items[k].dot >= 1
  {
    AppendedAreTransitions(start, rules, g, sets, P, orders, kernels, j);
    var m, c :| 0 <= m < |P| && Moves(rules, P[m], c) && P[j] == Moved(P[m], c, rules);
    assert SetOk(rules, P[m]);
    MovedOk(rules, P[m], c);
  }

  /** The starting sets come first; state 0 keeps what it had. */
  lemma StartKept(start: seq<ItemSet>, rules: seq<Rule>, g: RD.RuleGraph, sets: seq<ItemSet>,
                  P: seq<ItemSet>, orders: seq<seq<MixedChar>>, kernels: seq<seq<nat>>)
    requires Generated(start, rules, g, sets, P, orders, kernels)
    ensures |sets| >= |start|
    ensures forall j :: 0 <= j < |start| ==> P[j] == start[j]
    ensures |start| > 0 ==> sets[0] == start[0]
  {
    forall j | 0 <= j < |start| ensures P[j] == start[j] {
      assert P[..|start|][j] == P[j];
    }
    if |start| > 0 {
      assert Processed(rules, g, 0, P[0], orders[0], kernels[0], sets[0]);
    }
  }

  /** Every other set ends as it was appended followed by items at dot 0, one for each rule whose
      clause lies in a group reached from the group of a variable after one of its dots. */
  lemma ClosureReached(start: seq<ItemSet>, rules: seq<Rule>, g: RD.RuleGraph, sets: seq<ItemSet>,
                       P: seq<ItemSet>, orders: seq<seq<MixedChar>>, kernels: seq<seq<nat>>, j: nat)
    requires Generated(start, rules, g, sets, P, orders, kernels) && 0 < j < |sets|
    ensures |P[j].items| <= |sets[j].items| && sets[j].items[..|P[j].items|] == P[j].items
    ensures forall v :: v in OldSyntax.VariablesIn(orders[j]) <==> Var(v) in P[j].symbols
    ensures forall r: nat :: Item(r, 0) in sets[j].items[|P[j].items|..] <==>
      (r < |g.rules| && g.rules[r].clause in g.indexing &&
       RD.ReachedGroup(g, OldSyntax.VariablesIn(orders[j]), g.indexing[g.rules[r].clause]))
    ensures forall x :: x in sets[j].items[|P[j].items|..] ==> x.dot == 0
  {
    assert Processed(rules, g, j, P[j], orders[j], kernels[j], sets[j]);
    var pre, ks := P[j], kernels[j];
    var tail := sets[j].items[|pre.items|..];
    assert |tail| == |ks| && forall t :: 0 <= t < |ks| ==> tail[t] == Item(ks[t], 0);
    forall r: nat ensures Item(r, 0) in tail <==> r in ks {
      if r in ks {
        var t :| 0 <= t < |ks| && ks[t] == r;
        assert tail[t] == Item(r, 0);
      }
    }
  }

  // ---------------------------------------------------------------------------------------------
  // `ItemSets`

  /** A rule added to the grammar leaves the symbols of the items that name older rules alone. */
  lemma {:induction false} SymbolsOfExtended(rules: seq<Rule>, rule: Rule, items: seq<Item>)
    requires Numbered(rules, items)
    ensures Numbered(rules + [rule], items)
    ensures SymbolsOf(rules + [rule], items) == SymbolsOf(rules, items)
    decreases |items|
  {
    if items != [] {
      var last := items[|items| - 1];
      assert (rules + [rule])[last.ruleNumber] == rules[last.ruleNumber];
      SymbolsOfExtended(rules, rule, items[..|items| - 1]);
    }
  }

  /** A set well-formed for a grammar stays so when a rule is added to it. */
  lemma SetOkExtended(rules: seq<Rule>, rule: Rule, s: ItemSet)
    requires SetOk(rules, s)
    ensures SetOk(rules + [rule], s)
  {
    SymbolsOfExtended(rules, rule, s.items);
    forall k | 0 <= k < |s.items| ensures ItemOk(rules + [rule], s.items[k]) {
      assert ItemOk(rules, s.items[k]);
    }
  }

  /** `ItemSets`: the item sets found so far, state 0 first, and the grammar. */
  class ItemSets {
    var itemset: seq<ItemSet>
    var rules: seq<Rule>

    /** Every set is well-formed, and state 0 holds every rule at dot 0. */
    ghost predicate Valid()
      reads this
    {
      && |itemset| > 0
      && AllOk(rules, itemset)
      && forall k :: 0 <= k < |rules| ==> Item(k, 0) in itemset[0].items
    }

    /** `new`: one empty state and no rules. */
    constructor ()
      ensures Valid()
      ensures itemset == [Empty()] && rules == []
    {
      itemset := [Empty()];
      rules := [];
    }

    /** `add_rule`: the rule at dot 0 in state 0, under the next rule number. */
    method AddRule(rule: Rule)
      requires Valid()
      modifies this
      ensures Valid()
      ensures rules == old(rules) + [rule]
      ensures itemset == old(itemset)[0 := AddRuleAt(old(itemset)[0], rule, 0, |old(rules)|)]
    {
      var rules' := rules + [rule];
      var first := AddRuleAt(itemset[0], rule, 0, |rules|);
      forall j | 0 <= j < |itemset| ensures SetOk(rules', itemset[j]) {
        SetOkExtended(rules, rule, itemset[j]);
      }
      AddRuleOk(rules', itemset[0], 0, |rules|);
      forall k | 0 <= k < |rules'| ensures Item(k, 0) in first.items {
        if k < |rules| {
          assert Item(k, 0) in itemset[0].items;
        } else {
          assert first.items[|itemset[0].items|] == Item(k, 0);
        }
      }
      itemset := itemset[0 := first];
      rules := rules';
    }

    /** `generate_next`: the rule graph of the grammar, then the loop over the sets.  Building the
        graph needs the first symbol of every rule its connection test reads, and looking up the
        variables after the dots needs each of them to be a clause. */
    method GenerateNext() returns (ghost g: RD.RuleGraph, ghost pre: seq<ItemSet>,
                                   ghost orders: seq<seq<MixedChar>>, ghost kernels: seq<seq<nat>>)
      requires Valid()
      requires forall a, b :: RD.IsClause(rules, a) && RD.IsClause(rules, b) ==> OldRuleDepend.Scannable(rules, a, b)
      requires RD.ShiftedClosed(rules) && StartLookups(rules, itemset)
      modifies this
      ensures Valid() && rules == old(rules)
      ensures RD.GroupsOk(g) && g.rules == rules
      ensures OldRuleDepend.DfsGroups(|g.variables|, RD.Conn(g.rules, g.variables), g.nodeGroup)
      ensures Generated(old(itemset), rules, g, itemset, pre, orders, kernels)
    {
      var rulegraph := OldRuleDepend.New(rules);
      var sets;
      sets, pre, orders, kernels := Generation(itemset, rules, rulegraph);
      StartKept(itemset, rules, rulegraph, sets, pre, orders, kernels);
      itemset := sets;
      g := rulegraph;
    }
  }
}
