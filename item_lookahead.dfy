/** LR(1) items and item sets (src/itemset/item_lookahead.rs).  src/itemset/lr_one.rs declares its
    own `Item` and `ItemSet` with the same fields and the same bodies; both are this module. */
module ItemLookahead {
  import opened Wrappers
  import opened Syntax
  import Orders

  /** The item `rules[ruleNumber]` with the dot before `output[dot]`, and lookahead `follow`.  The
      derived order compares `ruleNumber`, then `kernel`, then `dot`, then `follow`. */
  datatype Item = Item(ruleNumber: nat, kernel: bool, dot: nat, follow: Terminal)

  /** The item names one of `rules` and its dot lies within that rule's output. */
  predicate ItemOk(rules: seq<Rule>, item: Item) {
    item.ruleNumber < |rules| && item.dot <= |rules[item.ruleNumber].output|
  }

  /** `shift`: the dot moves one symbol right and the item becomes a kernel item. */
  function Shift(item: Item): (r: Item)
    ensures r.ruleNumber == item.ruleNumber && r.follow == item.follow
    ensures r.dot == item.dot + 1 && r.kernel
  {
    Item(item.ruleNumber, true, item.dot + 1, item.follow)
  }

  /** `symbol`: the symbol right after the dot, if the dot is not at the end. */
  function Symbol(rules: seq<Rule>, item: Item): (r: Option<MixedChar>)
    requires item.ruleNumber < |rules|
    ensures r.Some? <==> item.dot < |rules[item.ruleNumber].output|
    ensures r.Some? ==> r.value == rules[item.ruleNumber].output[item.dot]
  {
    var out := rules[item.ruleNumber].output;
    if item.dot < |out| then Some(out[item.dot]) else None
  }

  /** `is_end`: the dot stands after the whole output. */
  function IsEnd(rules: seq<Rule>, item: Item): (b: bool)
    requires item.ruleNumber < |rules|
    ensures b <==> item.dot == |rules[item.ruleNumber].output|
  {
    |rules[item.ruleNumber].output| == item.dot
  }

  /** A well-formed item either has a symbol after its dot or is at the end, never both; shifting
      over that symbol keeps it well-formed. */
  lemma SymbolOrEnd(rules: seq<Rule>, item: Item)
    requires ItemOk(rules, item)
    ensures Symbol(rules, item).Some? != IsEnd(rules, item)
    ensures Symbol(rules, item).Some? ==> ItemOk(rules, Shift(item))
    ensures Symbol(rules, item).Some? ==>
      (IsEnd(rules, Shift(item)) <==> item.dot + 1 == |rules[item.ruleNumber].output|)
  {
  }

  /** An item set, with the symbols that stand right after some dot. */
  datatype ItemSet = ItemSet(items: set<Item>, symbols: set<MixedChar>)

  predicate SetOk(rules: seq<Rule>, s: ItemSet) {
    forall item :: item in s.items ==> ItemOk(rules, item)
  }

  /** The symbols right after the dots of `items`. */
  function SymbolsOf(rules: seq<Rule>, items: set<Item>): (r: set<MixedChar>)
    requires forall item :: item in items ==> item.ruleNumber < |rules|
    ensures forall c :: c in r <==> exists item :: item in items && Symbol(rules, item) == Some(c)
  {
    set item | item in items && Symbol(rules, item).Some? :: Symbol(rules, item).value
  }

  /** `symbols` is exactly the symbols after the dots of `items`. */
  predicate Consistent(rules: seq<Rule>, s: ItemSet)
    requires forall item :: item in s.items ==> item.ruleNumber < |rules|
  {
    s.symbols == SymbolsOf(rules, s.items)
  }

  /** `ItemSet::new`. */
  function Empty(): (s: ItemSet)
    ensures s.items == {} && s.symbols == {}
  {
    ItemSet({}, {})
  }

  /** The symbol of `rule` at `dot`, as a set: what `add_rule` and `add_kernel` record. */
  function SymbolAt(rule: Rule, dot: nat): (r: set<MixedChar>)
    ensures dot < |rule.output| ==> r == {rule.output[dot]}
    ensures dot >= |rule.output| ==> r == {}
  {
    if dot < |rule.output| then {rule.output[dot]} else {}
  }

  /** `add_rule` (and, with `kernel` true, `add_kernel`): one item at `dot` per lookahead of
      `follows`, and the symbol at `dot` recorded even when `follows` is empty. */
  function AddRule(s: ItemSet, rule: Rule, dot: nat, ruleNumber: nat, follows: set<Terminal>, kernel: bool): (r: ItemSet)
    ensures forall item :: item in r.items <==>
      item in s.items || (item.ruleNumber == ruleNumber && item.dot == dot && item.kernel == kernel && item.follow in follows)
    ensures r.symbols == s.symbols + SymbolAt(rule, dot)
  {
    ItemSet(s.items + (set f | f in follows :: Item(ruleNumber, kernel, dot, f)), s.symbols + SymbolAt(rule, dot))
  }

  /** Adding the items of rule `ruleNumber` keeps `symbols` exact when there is at least one
      lookahead; with none, the rule's symbol is recorded although no item carries it. */
  lemma AddRuleConsistent(rules: seq<Rule>, s: ItemSet, dot: nat, ruleNumber: nat, follows: set<Terminal>, kernel: bool)
    requires SetOk(rules, s) && Consistent(rules, s)
    requires ruleNumber < |rules| && dot <= |rules[ruleNumber].output|
    ensures SetOk(rules, AddRule(s, rules[ruleNumber], dot, ruleNumber, follows, kernel))
    ensures follows != {} ==> Consistent(rules, AddRule(s, rules[ruleNumber], dot, ruleNumber, follows, kernel))
    ensures follows == {} && dot < |rules[ruleNumber].output| && rules[ruleNumber].output[dot] !in s.symbols ==>
      !Consistent(rules, AddRule(s, rules[ruleNumber], dot, ruleNumber, follows, kernel))
  {
    var r := AddRule(s, rules[ruleNumber], dot, ruleNumber, follows, kernel);
    if follows != {} {
      var f :| f in follows;
      var item := Item(ruleNumber, kernel, dot, f);
      assert item in r.items;
      forall c | c in SymbolsOf(rules, r.items) ensures c in r.symbols {
        var x :| x in r.items && Symbol(rules, x) == Some(c);
        if x !in s.items {
          assert Symbol(rules, x) == Symbol(rules, item);
        }
      }
    }
  }

  /** `add_item`: the item and the symbol after its dot. */
  function AddItem(s: ItemSet, rules: seq<Rule>, item: Item): (r: ItemSet)
    requires item.ruleNumber < |rules|
    ensures r.items == s.items + {item}
    ensures Symbol(rules, item).Some? ==> r.symbols == s.symbols + {Symbol(rules, item).value}
    ensures Symbol(rules, item).None? ==> r.symbols == s.symbols
  {
    match Symbol(rules, item)
    case Some(c) => ItemSet(s.items + {item}, s.symbols + {c})
    case None => ItemSet(s.items + {item}, s.symbols)
  }

  /** The shifts of those `items` whose symbol is `c`, with their symbols: the set `transitions`
      builds. */
  function Moved(items: set<Item>, c: MixedChar, rules: seq<Rule>): ItemSet
    requires forall item :: item in items ==> item.ruleNumber < |rules|
  {
    var shifted := set item | item in items && Symbol(rules, item) == Some(c) :: Shift(item);
    ItemSet(shifted, SymbolsOf(rules, shifted))
  }

  /** The moved items are exactly the shifts of the items with `c` after their dot, all of them
      kernel items past the start of their rule, and `symbols` is exact for them. */
  lemma MovedItems(items: set<Item>, c: MixedChar, rules: seq<Rule>)
    requires forall item :: item in items ==> item.ruleNumber < |rules|
    ensures forall x :: x in Moved(items, c, rules).items <==>
      exists item :: item in items && Symbol(rules, item) == Some(c) && x == Shift(item)
    ensures forall x :: x in Moved(items, c, rules).items ==> x.kernel && x.dot >= 1 && x.ruleNumber < |rules|
    ensures Consistent(rules, Moved(items, c, rules))
  {
  }

  lemma MovedOk(items: set<Item>, c: MixedChar, rules: seq<Rule>)
    requires forall item :: item in items ==> ItemOk(rules, item)
    ensures forall item :: item in items ==> item.ruleNumber < |rules|
    ensures SetOk(rules, Moved(items, c, rules))
  {
    MovedItems(items, c, rules);
    forall x | x in Moved(items, c, rules).items ensures ItemOk(rules, x) {
      var item :| item in items && Symbol(rules, item) == Some(c) && x == Shift(item);
    }
  }

  /** Looking at one more item either shifts it into the new set or leaves the set as it was. */
  lemma MovedStep(done: set<Item>, item: Item, c: MixedChar, rules: seq<Rule>)
    requires forall x :: x in done ==> x.ruleNumber < |rules|
    requires item.ruleNumber < |rules|
    ensures Moved(done + {item}, c, rules) ==
      if Symbol(rules, item) == Some(c) then AddItem(Moved(done, c, rules), rules, Shift(item)) else Moved(done, c, rules)
  {
    var a := Moved(done + {item}, c, rules);
    var b := if Symbol(rules, item) == Some(c) then AddItem(Moved(done, c, rules), rules, Shift(item)) else Moved(done, c, rules);
    assert a.items == b.items;
  }

  /** `transitions`: the shifted items over `c`, or `None` when no item has `c` after its dot. */
  method Transitions(s: ItemSet, c: MixedChar, rules: seq<Rule>) returns (r: Option<ItemSet>)
    requires forall item :: item in s.items ==> item.ruleNumber < |rules|
    ensures r.None? <==> forall item :: item in s.items ==> Symbol(rules, item) != Some(c)
    ensures r.Some? ==> r.value == Moved(s.items, c, rules)
  {
    var newSet := Empty();
    var todo := s.items;
    while todo != {}
      invariant todo <= s.items
      invariant newSet == Moved(s.items - todo, c, rules)
      decreases todo
    {
      var item :| item in todo;
      MovedStep(s.items - todo, item, c, rules);
      assert s.items - (todo - {item}) == (s.items - todo) + {item};
      if Symbol(rules, item) == Some(c) {
        newSet := AddItem(newSet, rules, Shift(item));
      }
      todo := todo - {item};
    }
    assert s.items - todo == s.items;
    if |newSet.items| == 0 {
      forall item | item in s.items ensures Symbol(rules, item) != Some(c) {
        assert Shift(item) !in newSet.items;
      }
      return None;
    }
    var x :| x in newSet.items;
    return Some(newSet);
  }

  /** `other_item` is `item` with the dot one step further. */
  predicate Precedes(item: Item, otherItem: Item) {
    item.dot + 1 == otherItem.dot && item.ruleNumber == otherItem.ruleNumber
  }

  /** Some item of `s` is followed, one step further, by an item of `other`. */
  ghost predicate Linked(s: ItemSet, other: ItemSet) {
    exists item, otherItem {:trigger Precedes(item, otherItem)} :: item in s.items && otherItem in other.items && Precedes(item, otherItem)
  }

  /** Some linked pair has symbol `c` after the earlier dot. */
  ghost predicate LinkedBy(rules: seq<Rule>, s: ItemSet, other: ItemSet, c: MixedChar)
    requires forall item :: item in s.items ==> item.ruleNumber < |rules|
  {
    exists item, otherItem {:trigger Precedes(item, otherItem)} ::
      item in s.items && otherItem in other.items && Precedes(item, otherItem) && Symbol(rules, item) == Some(c)
  }

  /** The derived `Ord` of `Item`: rule number first, then `kernel` (false before true), then dot,
      then the lookahead's char. */
  predicate ItemLess(a: Item, b: Item) {
    || a.ruleNumber < b.ruleNumber
    || (a.ruleNumber == b.ruleNumber && !a.kernel && b.kernel)
    || (a.ruleNumber == b.ruleNumber && a.kernel == b.kernel && a.dot < b.dot)
    || (a.ruleNumber == b.ruleNumber && a.kernel == b.kernel && a.dot == b.dot && a.follow.symbol < b.follow.symbol)
  }

  lemma ItemLessTotal()
    ensures Orders.StrictTotalOrder(ItemLess)
  {
  }

  /** The item a `BTreeSet<Item>` yields first: the least one. */
  method LeastItem(todo: set<Item>) returns (item: Item)
    requires todo != {}
    ensures Orders.IsLeast(item, todo, ItemLess)
  {
    ItemLessTotal();
    Orders.LeastExists(todo, ItemLess);
    item :| Orders.IsLeast(item, todo, ItemLess);
  }

  /** Some item of `other` is `item` with the dot one step further. */
  ghost predicate LeadsInto(item: Item, other: ItemSet) {
    exists otherItem :: otherItem in other.items && Precedes(item, otherItem)
  }

  /** `item` comes first, in set order, among the items of `s` that lead into `other`. */
  ghost predicate FirstLinked(s: ItemSet, other: ItemSet, item: Item) {
    && item in s.items && LeadsInto(item, other)
    && forall x :: x in s.items && LeadsInto(x, other) && x != item ==> ItemLess(item, x)
  }

  /** `is_previous`: the items of `s` in set order, and for the first one that some item of `other`
      follows one step further, the symbol after its dot; the `unwrap` there needs that dot before
      the end of the rule.  Which item of `other` is met first does not change the answer. */
  method IsPrevious(s: ItemSet, rules: seq<Rule>, other: ItemSet) returns (r: Option<MixedChar>)
    requires forall item :: item in s.items ==> item.ruleNumber < |rules|
    requires forall item, otherItem :: item in s.items && otherItem in other.items && Precedes(item, otherItem) ==>
      item.dot < |rules[item.ruleNumber].output|
    ensures r.None? <==> !Linked(s, other)
    ensures r.Some? ==> exists item :: FirstLinked(s, other, item) && Symbol(rules, item) == Some(r.value)
    ensures r.Some? ==> LinkedBy(rules, s, other, r.value)
  {
    var outer := s.items;
    while outer != {}
      invariant outer <= s.items
      invariant forall item, otherItem :: item in s.items - outer && otherItem in other.items ==> !Precedes(item, otherItem)
      decreases outer
    {
      var item := LeastItem(outer);
      var inner := other.items;
      while inner != {}
        invariant inner <= other.items
        invariant forall otherItem :: otherItem in other.items - inner ==> !Precedes(item, otherItem)
        decreases inner
      {
        var otherItem :| otherItem in inner;
        if item.dot + 1 == otherItem.dot && item.ruleNumber == otherItem.ruleNumber {
          var c := Symbol(rules, item).value;
          assert Precedes(item, otherItem) && Symbol(rules, item) == Some(c);
          FirstAmongOuter(s, other, outer, item);
          return Some(c);
        }
        inner := inner - {otherItem};
      }
      outer := outer - {item};
    }
    r := None;
  }

  /** The least of the items not yet looked at that leads into `other` is the first linked item, when
      no item already looked at leads there. */
  lemma FirstAmongOuter(s: ItemSet, other: ItemSet, outer: set<Item>, item: Item)
    requires outer <= s.items && Orders.IsLeast(item, outer, ItemLess) && LeadsInto(item, other)
    requires forall x, y :: x in s.items - outer && y in other.items ==> !Precedes(x, y)
    ensures FirstLinked(s, other, item)
  {
    forall x | x in s.items && LeadsInto(x, other) && x != item ensures ItemLess(item, x) {
      var y :| y in other.items && Precedes(x, y);
      assert x in outer;
    }
  }

  /** Linking recovers the label: when every item of `other` past the start of its rule is a shift
      over `c` of an item of `t`, every linked pair from `s` into `other` has `c` after the dot. */
  lemma LinkedIsLabel(rules: seq<Rule>, s: ItemSet, t: ItemSet, c: MixedChar, other: ItemSet)
    requires forall item :: item in s.items ==> item.ruleNumber < |rules|
    requires forall item :: item in t.items ==> item.ruleNumber < |rules|
    requires forall y :: y in other.items && y.dot >= 1 ==> y in Moved(t.items, c, rules).items
    ensures forall c' :: LinkedBy(rules, s, other, c') ==> c' == c
  {
    forall c' | LinkedBy(rules, s, other, c') ensures c' == c {
      var item, y :| item in s.items && y in other.items && Precedes(item, y) && Symbol(rules, item) == Some(c');
      assert y in Moved(t.items, c, rules).items;
      var z :| z in t.items && Symbol(rules, z) == Some(c) && y == Shift(z);
      assert z.ruleNumber == item.ruleNumber && z.dot == item.dot;
    }
  }

  /** A set holding the transition of `s` over `c` is linked from `s`, by `c` among others. */
  lemma LinkedToMoved(rules: seq<Rule>, s: ItemSet, c: MixedChar, other: ItemSet)
    requires forall item :: item in s.items ==> item.ruleNumber < |rules|
    requires exists item :: item in s.items && Symbol(rules, item) == Some(c)
    requires Moved(s.items, c, rules).items <= other.items
    ensures Linked(s, other) && LinkedBy(rules, s, other, c)
  {
    var item :| item in s.items && Symbol(rules, item) == Some(c);
    assert Shift(item) in Moved(s.items, c, rules).items;
    assert Precedes(item, Shift(item));
  }

  /** The items whose dot is at the end of their rule. */
  function EndItems(s: ItemSet, rules: seq<Rule>): (r: set<Item>)
    requires forall item :: item in s.items ==> item.ruleNumber < |rules|
    ensures forall item :: item in r <==> item in s.items && IsEnd(rules, item)
  {
    set item | item in s.items && IsEnd(rules, item)
  }

  /** `reduce`: the rule and the lookahead of each end item. */
  function Reduce(s: ItemSet, rules: seq<Rule>): (r: set<(Rule, Terminal)>)
    requires forall item :: item in s.items ==> item.ruleNumber < |rules|
    ensures forall p :: p in r <==> exists item :: item in s.items && IsEnd(rules, item) && p == (rules[item.ruleNumber], item.follow)
  {
    set item | item in EndItems(s, rules) :: (rules[item.ruleNumber], item.follow)
  }
}
