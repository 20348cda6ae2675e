/** The LR(1) item-set collection and its generation (src/itemset/lr_one.rs).  Its items and item
    sets are those of `ItemLookahead`; the lookaheads of the items a closure adds come from the
    FOLLOW sets, filtered by the rules of the set being closed. */
module LrOne {
  import opened Wrappers
  import opened Syntax
  import opened Convert
  import opened Joinable
  import opened RuleDepend
  import opened ItemLookahead
  import opened FirstFollow
  import opened Worklist
  import NL = ItemNoLookahead

  // ---------------------------------------------------------------------------------------------
  // What generation computes

  /** The rule numbers of `items`: the `kernels` iterator of `generate_next`. */
  function RuleIds(items: set<Item>): (r: set<nat>)
    ensures forall k :: k in r <==> exists x :: x in items && x.ruleNumber == k
  {
    set x | x in items :: x.ruleNumber
  }

  /** `s` with, for each rule `k` of `ks`, one non-kernel item at the start of `k` per lookahead that
      FOLLOW gives the clause of `k` by one of the `allowed` rules, and the first symbol of `k`. */
  ghost function WithLookaheads(rules: seq<Rule>, follow: Follow, s: ItemSet, ks: set<nat>, allowed: set<nat>): ItemSet
    requires forall k :: k in ks ==> k < |rules|
  {
    ItemSet(s.items + (set k, f | k in ks && f in follow.GetFiltered(rules[k].clause, allowed) :: Item(k, false, 0, f)),
            s.symbols + (set k | k in ks && |rules[k].output| > 0 :: rules[k].output[0]))
  }

  /** The closure `generate_next` gives a set: the rules `gets_rule` reaches from its variables, each
      with the lookaheads FOLLOW gives its clause by a rule of the set or of the closure. */
  ghost function Closure(rules: seq<Rule>, follow: Follow, s: ItemSet): ItemSet {
    var ks := NL.ClosureRules(rules, s.symbols);
    WithLookaheads(rules, follow, s, ks, RuleIds(s.items) + ks)
  }

  /** The kernel of the first set: the first rule with the dot at its start and lookahead epsilon. */
  function StartKernel(rules: seq<Rule>): (s: ItemSet)
    requires |rules| > 0
    ensures s.items == {StartItem()} && s.symbols == SymbolAt(rules[0], 0)
  {
    AddRule(Empty(), rules[0], 0, 0, {Epsilon()}, true)
  }

  function StartItem(): Item {
    Item(0, true, 0, Epsilon())
  }

  /** The first set of `generate_next`. */
  ghost function Start(rules: seq<Rule>, follow: Follow): ItemSet
    requires |rules| > 0
  {
    Closure(rules, follow, StartKernel(rules))
  }

  /** Some item of `s` has `c` after its dot. */
  ghost predicate Moves(rules: seq<Rule>, s: ItemSet, c: MixedChar)
    requires SetOk(rules, s)
  {
    exists item :: item in s.items && Symbol(rules, item) == Some(c)
  }

  /** Where `transitions` and the closure loop take `s` on `c`: nothing when no item of `s` has `c`
      after its dot. */
  ghost function Goto(rules: seq<Rule>, follow: Follow, s: ItemSet, c: MixedChar): (r: Option<ItemSet>)
    requires SetOk(rules, s)
    ensures r.Some? <==> Moves(rules, s, c)
  {
    if Moves(rules, s, c) then Some(Closure(rules, follow, Moved(s.items, c, rules))) else None
  }

  /** The symbols of `s` on which it goes somewhere. */
  ghost function MovingSymbols(rules: seq<Rule>, s: ItemSet): set<MixedChar>
    requires SetOk(rules, s)
  {
    set c | c in s.symbols && Moves(rules, s, c)
  }

  /** `row` is what `generate_next` writes for `s`: one entry for each symbol of `s` that moves some
      item, in ascending order, naming a set of `sets` equal to where that symbol takes `s`. */
  ghost predicate RowOk(rules: seq<Rule>, follow: Follow, sets: seq<ItemSet>, s: ItemSet, row: seq<(MixedChar, nat)>)
    requires SetOk(rules, s)
  {
    && InOrder(Labels(row))
    && (forall c :: c in Labels(row) <==> c in s.symbols && Moves(rules, s, c))
    && Entries(rules, follow, sets, s, row)
  }

  /** Each entry of `row` names a set of `sets` equal to where its symbol takes `s`. */
  ghost predicate Entries(rules: seq<Rule>, follow: Follow, sets: seq<ItemSet>, s: ItemSet, row: seq<(MixedChar, nat)>)
    requires SetOk(rules, s)
  {
    forall p :: 0 <= p < |row| ==> row[p].1 < |sets| && Goto(rules, follow, s, row[p].0) == Some(sets[row[p].1])
  }

  /** `follow` is what `Follow::new` computes from what `First::from_rule` computes. */
  ghost predicate FollowOk(rules: seq<Rule>, follow: Follow) {
    exists first: First ::
      && (forall a, t :: t in Entry(first.sets, a) <==> Gathers(LeadingVariables(rules), LeadingTerminals(rules), a, t))
      && first.empty == EmptyClauses(rules)
      && (forall v, e :: e in Entry(follow.sets, v) <==> Gathers(FollowTrack(rules, first), FollowBase(rules, first), v, e))
  }

  // ---------------------------------------------------------------------------------------------
  // Facts about the states

  /** Every terminal FOLLOW records, and epsilon: the lookaheads an item can carry. */
  ghost function Lookaheads(follow: Follow): set<Terminal> {
    (set v, e | v in follow.sets && e in follow.sets[v] :: e.terminal) + {Epsilon()}
  }

  /** The lookaheads the items of `sets` carry. */
  ghost function Carried(sets: seq<ItemSet>): set<Terminal> {
    set i, x | 0 <= i < |sets| && x in sets[i].items :: x.follow
  }

  /** Every lookahead of `s` lies in `T`. */
  ghost predicate Within(T: set<Terminal>, s: ItemSet) {
    forall x :: x in s.items ==> x.follow in T
  }

  /** What every generated set satisfies: well-formed items whose lookaheads lie in `T`, and
      `symbols` holding every symbol after a dot and only symbols of the grammar.  A rule added with
      no lookahead leaves its symbol in `symbols` without an item, so `symbols` may hold more. */
  ghost predicate Bounded(rules: seq<Rule>, T: set<Terminal>, s: ItemSet) {
    && SetOk(rules, s) && Within(T, s)
    && SymbolsOf(rules, s.items) <= s.symbols <= AllSymbols(rules)
  }

  /** A filtered lookahead is one FOLLOW records. */
  lemma FilteredKnown(follow: Follow, key: Variable, allowed: set<nat>, f: Terminal)
    requires f in follow.GetFiltered(key, allowed)
    ensures f in Lookaheads(follow)
  {
    var n: nat :| n in allowed && Tagged(n, f) in Entry(follow.sets, key);
    assert key in follow.sets && Tagged(n, f) in follow.sets[key];
  }

  /** The closure of a bounded set is bounded. */
  lemma ClosureBounded(rules: seq<Rule>, follow: Follow, T: set<Terminal>, s: ItemSet)
    requires Lookaheads(follow) <= T && Bounded(rules, T, s)
    ensures Bounded(rules, T, Closure(rules, follow, s))
  {
    var c := Closure(rules, follow, s);
    var ks := NL.ClosureRules(rules, s.symbols);
    var allowed := RuleIds(s.items) + ks;
    forall x | x in c.items ensures ItemOk(rules, x) && x.follow in T {
      if x !in s.items {
        var k, f :| k in ks && f in follow.GetFiltered(rules[k].clause, allowed) && x == Item(k, false, 0, f);
        FilteredKnown(follow, rules[k].clause, allowed, f);
      }
    }
    forall m | m in SymbolsOf(rules, c.items) ensures m in c.symbols {
      var x :| x in c.items && Symbol(rules, x) == Some(m);
      if x !in s.items {
        var k, f :| k in ks && f in follow.GetFiltered(rules[k].clause, allowed) && x == Item(k, false, 0, f);
        assert |rules[k].output| > 0 && rules[k].output[0] == m;
      }
    }
    forall m | m in c.symbols ensures m in AllSymbols(rules) {
      if m !in s.symbols {
        var k :| k in ks && |rules[k].output| > 0 && rules[k].output[0] == m;
      }
    }
  }

  /** The first set is bounded; its only kernel item is the first rule with the dot at its start and
      lookahead epsilon. */
  lemma StartBounded(rules: seq<Rule>, follow: Follow, T: set<Terminal>)
    requires |rules| > 0 && Lookaheads(follow) <= T
    ensures Bounded(rules, T, Start(rules, follow))
    ensures forall x :: x in Start(rules, follow).items && x.kernel <==> x == StartItem()
  {
    StartKernelOk(rules);
    ClosureBounded(rules, follow, T, StartKernel(rules));
  }

  /** The kernel of the first set names only grammar symbols and rule 0. */
  lemma StartKernelOk(rules: seq<Rule>)
    requires |rules| > 0
    ensures StartKernel(rules).symbols <= KernelSymbols(rules) <= AllSymbols(rules)
    ensures RuleIds(StartKernel(rules).items) == {0}
  {
    var s := StartKernel(rules);
    forall m | m in s.symbols ensures m in KernelSymbols(rules) {
      assert rules[0].output[0] == m;
    }
    assert StartItem() in s.items;
  }

  /** A set reached on a symbol is bounded, and its kernel items are exactly the items moved over
      that symbol, so it never holds the start item. */
  lemma GotoBounded(rules: seq<Rule>, follow: Follow, T: set<Terminal>, s: ItemSet, c: MixedChar)
    requires Lookaheads(follow) <= T && SetOk(rules, s) && Within(T, s) && Goto(rules, follow, s, c).Some?
    ensures Bounded(rules, T, Goto(rules, follow, s, c).value)
    ensures forall x :: x in Goto(rules, follow, s, c).value.items && x.kernel <==> x in Moved(s.items, c, rules).items
    ensures StartItem() !in Goto(rules, follow, s, c).value.items
  {
    var m := Moved(s.items, c, rules);
    MovedItems(s.items, c, rules);
    forall x | x in m.items ensures ItemOk(rules, x) && x.follow in T {
      var item :| item in s.items && Symbol(rules, item) == Some(c) && x == Shift(item);
      SymbolOrEnd(rules, item);
    }
    MovedSymbols(s.items, c, rules);
    ClosureBounded(rules, follow, T, m);
  }

  /** A variable a kernel item's dot can stand before is, in a grammar whose looked-up variables
      have rules, one `indexing` knows. */
  lemma SymbolsIndexed(g: RuleGraph, symbols: set<MixedChar>)
    requires VariablesOk(g) && IndexingOk(g) && LookupsClosed(g.rules)
    requires symbols <= KernelSymbols(g.rules)
    ensures forall v :: Var(v) in symbols ==> v in g.indexing
  {
    assert ShiftedClosed(g.rules) && StartClosed(g.rules);
    forall v | Var(v) in symbols ensures v in g.indexing {
      var k: nat, j: nat :| k < |g.rules| && j < |g.rules[k].output| && (1 <= j || k == 0) && g.rules[k].output[j] == Var(v);
      assert IsClause(g.rules, v);
      var r :| r in g.rules && r.clause == v;
    }
  }

  /** Adding the rules of the closure one at a time. */
  lemma WithLookaheadsStep(rules: seq<Rule>, follow: Follow, s: ItemSet, ks: set<nat>, k: nat, allowed: set<nat>)
    requires forall x :: x in ks ==> x < |rules|
    requires k < |rules|
    ensures WithLookaheads(rules, follow, s, ks + {k}, allowed) ==
      AddRule(WithLookaheads(rules, follow, s, ks, allowed), rules[k], 0, k, follow.GetFiltered(rules[k].clause, allowed), false)
  {
    var a := WithLookaheads(rules, follow, s, ks + {k}, allowed);
    var b := AddRule(WithLookaheads(rules, follow, s, ks, allowed), rules[k], 0, k, follow.GetFiltered(rules[k].clause, allowed), false);
    assert a.items == b.items;
    assert a.symbols == b.symbols;
  }

  /** The rules of a set with lookaheads added are those of the set and of the rules added. */
  lemma WithLookaheadsRules(rules: seq<Rule>, follow: Follow, s: ItemSet, ks: set<nat>, all: set<nat>, allowed: set<nat>)
    requires forall x :: x in ks ==> x < |rules|
    requires ks <= all
    ensures RuleIds(WithLookaheads(rules, follow, s, ks, allowed).items) + all == RuleIds(s.items) + all
  {
    var r := WithLookaheads(rules, follow, s, ks, allowed);
    forall n | n in RuleIds(r.items) ensures n in RuleIds(s.items) + all {
      var x :| x in r.items && x.ruleNumber == n;
    }
  }

  // ---------------------------------------------------------------------------------------------
  // A finite universe of states, which bounds the generation loop

  ghost function AllItems(rules: seq<Rule>, T: set<Terminal>): set<Item> {
    set k: nat, kernel: bool, dot: nat, f | k < |rules| && dot <= |rules[k].output| && f in T ::
      Item(k, kernel, dot, f)
  }

  ghost function Universe(rules: seq<Rule>, T: set<Terminal>): set<ItemSet> {
    set items, symbols | items <= AllItems(rules, T) && symbols <= AllSymbols(rules) :: ItemSet(items, symbols)
  }

  lemma InUniverse(rules: seq<Rule>, T: set<Terminal>, s: ItemSet)
    requires Bounded(rules, T, s)
    ensures s in Universe(rules, T)
  {
    forall x | x in s.items ensures x in AllItems(rules, T) {
      assert ItemOk(rules, x) && x.follow in T;
    }
  }

  /** Some finite set holds every bounded item set. */
  lemma UniverseExists(rules: seq<Rule>, T: set<Terminal>)
    ensures exists u: set<ItemSet> :: Covers(rules, T, u)
  {
    forall s | Bounded(rules, T, s) ensures s in Universe(rules, T) {
      InUniverse(rules, T, s);
    }
    assert Covers(rules, T, Universe(rules, T));
  }

  ghost predicate Covers(rules: seq<Rule>, T: set<Terminal>, u: set<ItemSet>) {
    forall s {:trigger Bounded(rules, T, s)} :: Bounded(rules, T, s) ==> s in u
  }

  // ---------------------------------------------------------------------------------------------
  // The collection

  /** `itemmaps` of `generate_next`: each set reached on a symbol, mapped to its place in `sets`,
      every place after `n0` (where the first set went) listed once. */
  ghost predicate MapsOk(rules: seq<Rule>, T: set<Terminal>, sets: seq<ItemSet>, n0: nat, maps: map<ItemSet, nat>) {
    && n0 < |sets|
    && StartItem() in sets[n0].items
    && (forall s :: s in maps ==> n0 < maps[s] < |sets| && sets[maps[s]] == s)
    && (forall j :: n0 < j < |sets| ==> sets[j] in maps && maps[sets[j]] == j)
    && (forall s :: s in maps ==> Bounded(rules, T, s) && StartItem() !in s.items)
  }

  /** What generation keeps of its sets: the map of reached sets, inside the finite bound `u`, and
      every set it pushed bounded. */
  ghost predicate States(rules: seq<Rule>, T: set<Terminal>, sets: seq<ItemSet>, n0: nat, u: set<ItemSet>, maps: map<ItemSet, nat>) {
    && MapsOk(rules, T, sets, n0, maps)
    && Covers(rules, T, u) && maps.Keys <= u
    && (forall i :: n0 <= i < |sets| ==> Bounded(rules, T, sets[i]))
  }

  /** Every item of every set is well-formed. */
  ghost predicate AllOk(rules: seq<Rule>, sets: seq<ItemSet>) {
    forall i :: 0 <= i < |sets| ==> SetOk(rules, sets[i])
  }

  class ItemSets {
    var sets: seq<ItemSet>
    var rules: seq<Rule>
    var orderingMap: seq<seq<(MixedChar, nat)>>

    /** There is a first rule to start from, and every item of every set is well-formed. */
    ghost predicate Valid()
      reads this
    {
      |rules| > 0 && AllOk(rules, sets)
    }

    /** `new`: the collection holds the end rule alone.  `Rule::end` is not part of this model, so the
        end rule is passed in. */
    constructor (endRule: Rule)
      ensures rules == [endRule] && sets == [] && orderingMap == []
      ensures Valid()
    {
      rules := [endRule];
      sets := [];
      orderingMap := [];
    }

    /** `add_rule`: the rule goes last. */
    method AddRule(rule: Rule)
      requires Valid()
      modifies this
      ensures rules == old(rules) + [rule] && sets == old(sets) && orderingMap == old(orderingMap)
      ensures Valid()
    {
      rules := rules + [rule];
      forall i | 0 <= i < |sets| ensures SetOk(rules, sets[i]) {
        assert SetOk(old(rules), sets[i]);
      }
      assert AllOk(rules, sets);
    }

    /** `add_from_string`: parse the line and add the rule; on a parse error nothing changes. */
    method AddFromString(line: string) returns (ok: bool)
      requires Valid()
      modifies this
      ensures ok <==> RuleOfLine(line).Ok?
      ensures rules == if ok then old(rules) + [RuleOfLine(line).value] else old(rules)
      ensures sets == old(sets) && orderingMap == old(orderingMap)
      ensures Valid()
    {
      var rule := ParseRule(line);
      if rule.Err? {
        return false;
      }
      AddRule(rule.value);
      ok := true;
    }

    /** `clear`: the sets and the rows go, the rules stay. */
    method Clear()
      modifies this
      ensures sets == [] && orderingMap == [] && rules == old(rules)
    {
      sets := [];
      orderingMap := [];
    }

    /** `generate_next`: compute FOLLOW, push the first set, then take the sets one by one from the
        first, writing one row of `ordering_map` for each and pushing every set not seen before.  The
        FOLLOW sets it used are returned, as a ghost, to state what the sets are. */
    method GenerateNext() returns (ghost follow: Follow)
      requires Valid() && LookupsClosed(rules)
      modifies this
      ensures Valid() && rules == old(rules) && FollowOk(rules, follow)
      ensures |sets| > |old(sets)| && sets[..|old(sets)|] == old(sets)
      ensures sets[|old(sets)|] == Start(rules, follow)
      ensures |orderingMap| == |old(orderingMap)| + |sets|
      ensures orderingMap[..|old(orderingMap)|] == old(orderingMap)
      ensures forall i :: 0 <= i < |sets| ==> RowOk(rules, follow, sets, sets[i], orderingMap[|old(orderingMap)| + i])
      ensures forall i :: |old(sets)| <= i < |sets| ==> Bounded(rules, Lookaheads(follow) + Carried(old(sets)), sets[i])
      ensures forall i, j :: |old(sets)| <= i < j < |sets| ==> sets[i] != sets[j]
    {
      var s, r;
      s, r, follow := Generation(rules, sets, orderingMap);
      sets, orderingMap := s, r;
    }
  }

  /** What `generate_next` does to the sets and the rows, with the rules fixed. */
  method Generation(rules: seq<Rule>, base: seq<ItemSet>, rows: seq<seq<(MixedChar, nat)>>)
    returns (sets: seq<ItemSet>, rows': seq<seq<(MixedChar, nat)>>, follow: Follow)
    requires |rules| > 0 && AllOk(rules, base) && LookupsClosed(rules)
    ensures FollowOk(rules, follow) && AllOk(rules, sets)
    ensures |sets| > |base| && sets[..|base|] == base
    ensures sets[|base|] == Start(rules, follow)
    ensures |rows'| == |rows| + |sets| && rows'[..|rows|] == rows
    ensures forall i :: 0 <= i < |sets| ==> RowOk(rules, follow, sets, sets[i], rows'[|rows| + i])
    ensures forall i :: |base| <= i < |sets| ==> Bounded(rules, Lookaheads(follow) + Carried(base), sets[i])
    ensures forall i, j :: |base| <= i < j < |sets| ==> sets[i] != sets[j]
  {
    var ruleGraph, start;
    ruleGraph, follow, start := Prepare(rules);
    ghost var T := Lookaheads(follow) + Carried(base);
    StartBounded(rules, follow, T);
    forall i | 0 <= i < |base| ensures Within(T, base[i]) {
      forall x | x in base[i].items ensures x.follow in T {
        assert x.follow in Carried(base);
      }
    }
    ghost var maps;
    sets, rows', maps := Generate(rules, ruleGraph, follow, T, base, start, rows);
    forall i, j | |base| <= i < j < |sets| ensures sets[i] != sets[j] {
      MapsDistinct(rules, T, sets, |base|, maps, i, j);
    }
  }

  /** What `generate_next` builds before its worklist: the rule graph, FOLLOW and the first set. */
  method Prepare(rules: seq<Rule>) returns (g: RuleGraph, follow: Follow, start: ItemSet)
    requires |rules| > 0 && LookupsClosed(rules)
    ensures GraphFor(g, rules) && FollowOk(rules, follow) && start == Start(rules, follow)
  {
    g := New(rules);
    assert GraphFor(g, rules);
    var first := FromRule(rules);
    follow := NewFollow(first, rules);
    start := StartState(g, rules, follow);
  }

  /** The first set of `generate_next`: the kernel, then for each rule `gets_rule` reaches from it the
      lookaheads FOLLOW gives its clause by rule 0 or one of those rules. */
  method StartState(g: RuleGraph, rules: seq<Rule>, follow: Follow) returns (s: ItemSet)
    requires GraphOk(g) && g.rules == rules && |rules| > 0 && LookupsClosed(rules)
    ensures s == Start(rules, follow)
  {
    s := StartKernel(rules);
    StartKernelOk(rules);
    SymbolsIndexed(g, s.symbols);
    var closures := GetsRule(g, NL.SymbolVariables(s.symbols));
    NL.NonKernelsAreClosure(g, s.symbols, closures);
    s := AddLookaheads(s, rules, follow, closures, {0} + NL.Members(closures));
  }

  /** The loop that closes the first set: every rule of `ks` with its filtered lookaheads. */
  method AddLookaheads(s: ItemSet, rules: seq<Rule>, follow: Follow, ks: seq<nat>, allowed: set<nat>) returns (r: ItemSet)
    requires forall i :: 0 <= i < |ks| ==> ks[i] < |rules|
    ensures r == WithLookaheads(rules, follow, s, NL.Members(ks), allowed)
  {
    r := s;
    assert NL.Members(ks[..0]) == {};
    for i := 0 to |ks|
      invariant r == WithLookaheads(rules, follow, s, NL.Members(ks[..i]), allowed)
    {
      var k := ks[i];
      WithLookaheadsStep(rules, follow, s, NL.Members(ks[..i]), k, allowed);
      assert NL.Members(ks[..i + 1]) == NL.Members(ks[..i]) + {k} by {
        assert ks[..i + 1] == ks[..i] + [k];
      }
      r := AddRule(r, rules[k], 0, k, follow.GetFiltered(rules[k].clause, allowed), false);
    }
    assert ks[..|ks|] == ks;
  }

  /** The loop that closes a set reached on a symbol: every rule of `ks` with the lookaheads FOLLOW
      gives its clause by a rule of the set as it stands or of `ks`. */
  method AddClosure(s: ItemSet, rules: seq<Rule>, follow: Follow, ks: seq<nat>) returns (r: ItemSet)
    requires forall i :: 0 <= i < |ks| ==> ks[i] < |rules|
    ensures r == WithLookaheads(rules, follow, s, NL.Members(ks), RuleIds(s.items) + NL.Members(ks))
  {
    ghost var allowed0 := RuleIds(s.items) + NL.Members(ks);
    r := s;
    assert NL.Members(ks[..0]) == {};
    for i := 0 to |ks|
      invariant r == WithLookaheads(rules, follow, s, NL.Members(ks[..i]), allowed0)
    {
      var k := ks[i];
      var allowed := RuleIds(r.items) + NL.Members(ks);
      WithLookaheadsRules(rules, follow, s, NL.Members(ks[..i]), NL.Members(ks), allowed0);
      WithLookaheadsStep(rules, follow, s, NL.Members(ks[..i]), k, allowed0);
      assert NL.Members(ks[..i + 1]) == NL.Members(ks[..i]) + {k} by {
        assert ks[..i + 1] == ks[..i] + [k];
      }
      r := AddRule(r, rules[k], 0, k, follow.GetFiltered(rules[k].clause, allowed), false);
    }
    assert ks[..|ks|] == ks;
  }

  /** The outer loop of `generate_next`, with the first set last in `sets`: one row for each set from
      the first, every set reached on a symbol pushed unless `itemmaps` already has it. */
  method Generate(rules: seq<Rule>, g: RuleGraph, follow: Follow, ghost T: set<Terminal>, base: seq<ItemSet>,
                  first: ItemSet, rows: seq<seq<(MixedChar, nat)>>)
    returns (sets': seq<ItemSet>, rows': seq<seq<(MixedChar, nat)>>, ghost maps: map<ItemSet, nat>)
    requires GraphFor(g, rules)
    requires Lookaheads(follow) <= T && AllOk(rules, base) && (forall i :: 0 <= i < |base| ==> Within(T, base[i]))
    requires Bounded(rules, T, first) && StartItem() in first.items
    ensures |sets'| > |base| && sets'[..|base|] == base && sets'[|base|] == first && AllOk(rules, sets')
    ensures |rows'| == |rows| + |sets'| && rows'[..|rows|] == rows
    ensures forall i :: 0 <= i < |sets'| ==> RowOk(rules, follow, sets', sets'[i], rows'[|rows| + i])
    ensures MapsOk(rules, T, sets', |base|, maps)
    ensures forall i :: |base| <= i < |sets'| ==> Bounded(rules, T, sets'[i])
  {
    ghost var n0 := |base|;
    var sets := base + [first];
    UniverseExists(rules, T);
    ghost var u: set<ItemSet> :| Covers(rules, T, u);
    sets', rows', maps := sets, rows, map[];
    var itemmaps: map<ItemSet, nat> := map[];
    var index := 0;
    while index < |sets'|
      invariant |sets'| > n0 && sets'[..|sets|] == sets && AllOk(rules, sets')
      invariant States(rules, T, sets', n0, u, itemmaps)
      invariant 0 <= index <= |sets'|
      invariant |rows'| == |rows| + index && rows'[..|rows|] == rows
      invariant Rows(rules, follow, sets', rows', |rows|, index)
      decreases |u| - |itemmaps|, |sets'| - index
    {
      var cur := sets'[index];
      if index < n0 {
        BaseWithin(T, base, first, sets', index);
      }
      ghost var before := sets';
      var row;
      KeysBound(u, itemmaps);
      sets', row, itemmaps := Expand(rules, g, follow, T, sets', cur, n0, u, itemmaps);
      PrefixKept(before, sets', n0, index);
      PrefixTrans(sets, before, sets');
      RowsExtend(rules, follow, before, sets', rows', |rows|, index);
      RowsSnoc(rules, follow, sets', rows', |rows|, index, row);
      assert (rows' + [row])[..|rows|] == rows'[..|rows|];
      rows' := rows' + [row];
      index := index + 1;
    }
    maps := itemmaps;
    SnocPrefix(base, first, sets');
  }

  /** The inner loop of `generate_next`: the symbols of `cur` in ascending order. */
  method Expand(rules: seq<Rule>, g: RuleGraph, follow: Follow, ghost T: set<Terminal>, sets: seq<ItemSet>, cur: ItemSet,
                ghost n0: nat, ghost u: set<ItemSet>, itemmaps: map<ItemSet, nat>)
    returns (sets': seq<ItemSet>, row: seq<(MixedChar, nat)>, maps: map<ItemSet, nat>)
    requires GraphFor(g, rules)
    requires Lookaheads(follow) <= T && SetOk(rules, cur) && Within(T, cur) && AllOk(rules, sets)
    requires States(rules, T, sets, n0, u, itemmaps)
    ensures |sets'| >= |sets| && sets'[..|sets|] == sets && AllOk(rules, sets')
    ensures States(rules, T, sets', n0, u, maps)
    ensures RowOk(rules, follow, sets', cur, row)
    ensures |maps| == |itemmaps| + (|sets'| - |sets|)
  {
    var cs := Ascending(cur.symbols);
    sets', row, maps := sets, [], itemmaps;
    for p := 0 to |cs|
      invariant |sets'| >= |sets| && sets'[..|sets|] == sets && AllOk(rules, sets')
      invariant States(rules, T, sets', n0, u, maps)
      invariant Labels(row) == Kept(cs[..p], MovingSymbols(rules, cur))
      invariant Entries(rules, follow, sets', cur, row)
      invariant |maps| == |itemmaps| + (|sets'| - |sets|)
    {
      KeptStep(cs, p, MovingSymbols(rules, cur));
      ghost var before := sets';
      sets', row, maps := Step(rules, g, follow, T, sets', cur, cs[p], n0, u, row, maps);
      PrefixTrans(sets, before, sets');
    }
    assert cs[..|cs|] == cs;
    KeptInOrder(cs, MovingSymbols(rules, cur));
  }

  /** The body of the inner loop of `generate_next` for the symbol `c`: when `c` moves some item of
      `cur`, the closure of the moved items is looked up, pushed if it is new, and named in the row. */
  method Step(rules: seq<Rule>, g: RuleGraph, follow: Follow, ghost T: set<Terminal>, sets: seq<ItemSet>, cur: ItemSet,
              c: MixedChar, ghost n0: nat, ghost u: set<ItemSet>, row: seq<(MixedChar, nat)>, maps: map<ItemSet, nat>)
    returns (sets': seq<ItemSet>, row': seq<(MixedChar, nat)>, maps': map<ItemSet, nat>)
    requires GraphFor(g, rules)
    requires Lookaheads(follow) <= T && SetOk(rules, cur) && Within(T, cur) && AllOk(rules, sets)
    requires States(rules, T, sets, n0, u, maps) && Entries(rules, follow, sets, cur, row)
    ensures |sets'| >= |sets| && sets'[..|sets|] == sets && AllOk(rules, sets')
    ensures States(rules, T, sets', n0, u, maps') && Entries(rules, follow, sets', cur, row')
    ensures Labels(row') == Labels(row) + if Moves(rules, cur, c) then [c] else []
    ensures |maps'| == |maps| + (|sets'| - |sets|)
  {
    sets', row', maps' := sets, row, maps;
    var next := GotoOf(rules, g, follow, cur, c);
    if next.Some? {
      GotoBounded(rules, follow, T, cur, c);
      if next.value in maps {
        row' := row + [(c, maps[next.value])];
        PushKnown(rules, follow, T, sets, cur, c, n0, u, row, maps, next.value);
      } else {
        PushNew(rules, follow, T, sets, cur, c, n0, u, row, maps, next.value);
        maps' := maps[next.value := |sets|];
        row' := row + [(c, |sets|)];
        sets' := sets + [next.value];
      }
    }
  }

  /** `transitions` followed by the closure loop: where `cur` goes on `c`. */
  method GotoOf(rules: seq<Rule>, g: RuleGraph, follow: Follow, cur: ItemSet, c: MixedChar) returns (r: Option<ItemSet>)
    requires GraphFor(g, rules) && SetOk(rules, cur)
    ensures r == Goto(rules, follow, cur, c)
  {
    var moved := Transitions(cur, c, rules);
    if moved.None? {
      return None;
    }
    assert GraphOk(g);
    MovedSymbols(cur.items, c, rules);
    var next := CloseSuccessor(moved.value, g, rules, follow);
    r := Some(next);
  }

  /** The closure loop of `generate_next` for a set reached on a symbol. */
  method CloseSuccessor(s: ItemSet, g: RuleGraph, rules: seq<Rule>, follow: Follow) returns (r: ItemSet)
    requires GraphOk(g) && g.rules == rules && LookupsClosed(rules)
    requires s.symbols <= KernelSymbols(rules)
    ensures r == Closure(rules, follow, s)
  {
    SymbolsIndexed(g, s.symbols);
    var nonKernels := GetsRule(g, NL.SymbolVariables(s.symbols));
    NL.NonKernelsAreClosure(g, s.symbols, nonKernels);
    r := AddClosure(s, rules, follow, nonKernels);
  }

  /** The symbols of moved items are symbols of the grammar. */
  lemma MovedSymbols(items: set<Item>, c: MixedChar, rules: seq<Rule>)
    requires forall item :: item in items ==> item.ruleNumber < |rules|
    ensures Moved(items, c, rules).symbols <= KernelSymbols(rules) <= AllSymbols(rules)
  {
    var m := Moved(items, c, rules);
    MovedItems(items, c, rules);
    forall a | a in m.symbols ensures a in KernelSymbols(rules) {
      var x :| x in m.items && Symbol(rules, x) == Some(a);
      assert rules[x.ruleNumber].output[x.dot] == a;
    }
  }

  /** A set reached on `c` that is new to the map goes last in `sets`, and the row names it. */
  lemma PushNew(rules: seq<Rule>, follow: Follow, T: set<Terminal>, sets: seq<ItemSet>, cur: ItemSet, c: MixedChar,
                n0: nat, u: set<ItemSet>, row: seq<(MixedChar, nat)>, maps: map<ItemSet, nat>, next: ItemSet)
    requires SetOk(rules, cur) && AllOk(rules, sets)
    requires States(rules, T, sets, n0, u, maps) && Entries(rules, follow, sets, cur, row)
    requires Goto(rules, follow, cur, c) == Some(next) && next !in maps
    requires Bounded(rules, T, next) && StartItem() !in next.items
    ensures (sets + [next])[..|sets|] == sets && AllOk(rules, sets + [next])
    ensures States(rules, T, sets + [next], n0, u, maps[next := |sets|])
    ensures Entries(rules, follow, sets + [next], cur, row + [(c, |sets|)])
    ensures Labels(row + [(c, |sets|)]) == Labels(row) + [c]
    ensures |maps[next := |sets|]| == |maps| + 1
  {
    StatesPush(rules, T, sets, n0, u, maps, next);
    EntriesExtend(rules, follow, sets, sets + [next], cur, row);
    EntriesSnoc(rules, follow, sets + [next], cur, row, c, |sets|);
  }

  /** Pushing a bounded set that is new to the map keeps the states, and uses up one set of `u`. */
  lemma StatesPush(rules: seq<Rule>, T: set<Terminal>, sets: seq<ItemSet>, n0: nat, u: set<ItemSet>,
                   maps: map<ItemSet, nat>, next: ItemSet)
    requires States(rules, T, sets, n0, u, maps) && AllOk(rules, sets)
    requires Bounded(rules, T, next) && StartItem() !in next.items && next !in maps
    ensures States(rules, T, sets + [next], n0, u, maps[next := |sets|]) && AllOk(rules, sets + [next])
    ensures |maps[next := |sets|]| == |maps| + 1
  {
  }

  /** An entry naming where `c` takes `s` can go last in the row. */
  /** A goto already numbered: the row names it by its place, and nothing else changes. */
  lemma PushKnown(rules: seq<Rule>, follow: Follow, T: set<Terminal>, sets: seq<ItemSet>, cur: ItemSet, c: MixedChar,
                  n0: nat, u: set<ItemSet>, row: seq<(MixedChar, nat)>, maps: map<ItemSet, nat>, next: ItemSet)
    requires SetOk(rules, cur)
    requires States(rules, T, sets, n0, u, maps) && Entries(rules, follow, sets, cur, row)
    requires Goto(rules, follow, cur, c) == Some(next) && next in maps
    ensures maps[next] < |sets| && Entries(rules, follow, sets, cur, row + [(c, maps[next])])
    ensures Labels(row + [(c, maps[next])]) == Labels(row) + [c]
  {
    EntriesSnoc(rules, follow, sets, cur, row, c, maps[next]);
  }

  lemma EntriesSnoc(rules: seq<Rule>, follow: Follow, sets: seq<ItemSet>, s: ItemSet, row: seq<(MixedChar, nat)>,
                    c: MixedChar, n: nat)
    requires SetOk(rules, s) && Entries(rules, follow, sets, s, row)
    requires n < |sets| && Goto(rules, follow, s, c) == Some(sets[n])
    ensures Entries(rules, follow, sets, s, row + [(c, n)])
    ensures Labels(row + [(c, n)]) == Labels(row) + [c]
  {
    LabelsSnoc(row, c, n);
  }

  /** The first set and the sets reached on a symbol are pairwise different. */
  lemma MapsDistinct(rules: seq<Rule>, T: set<Terminal>, sets: seq<ItemSet>, n0: nat, maps: map<ItemSet, nat>, i: nat, j: nat)
    requires MapsOk(rules, T, sets, n0, maps)
    requires n0 <= i < j < |sets|
    ensures sets[i] != sets[j]
  {
    assert sets[j] in maps;
  }

  lemma EntriesExtend(rules: seq<Rule>, follow: Follow, sets: seq<ItemSet>, sets': seq<ItemSet>, s: ItemSet,
                      row: seq<(MixedChar, nat)>)
    requires SetOk(rules, s) && Entries(rules, follow, sets, s, row)
    requires |sets| <= |sets'| && sets'[..|sets|] == sets
    ensures Entries(rules, follow, sets', s, row)
  {
    forall p | 0 <= p < |row| ensures row[p].1 < |sets'| && Goto(rules, follow, s, row[p].0) == Some(sets'[row[p].1]) {
      assert sets'[row[p].1] == sets[row[p].1];
    }
  }

  /** The sets before the first set are the ones generation started with. */
  lemma BaseWithin(T: set<Terminal>, base: seq<ItemSet>, first: ItemSet, sets: seq<ItemSet>, i: nat)
    requires i < |base| < |sets| && sets[..|base| + 1] == base + [first]
    requires forall j :: 0 <= j < |base| ==> Within(T, base[j])
    ensures Within(T, sets[i])
  {
    SnocPrefix(base, first, sets);
    assert sets[i] == sets[..|base|][i];
  }

  /** The rows `rows[off..off + n]` are right for the first `n` sets of `sets`. */
  ghost predicate Rows(rules: seq<Rule>, follow: Follow, sets: seq<ItemSet>, rows: seq<seq<(MixedChar, nat)>>, off: nat, n: nat)
    requires AllOk(rules, sets) && n <= |sets| && off + n <= |rows|
  {
    forall i :: 0 <= i < n ==> RowOk(rules, follow, sets, sets[i], rows[off + i])
  }

  /** The rows stay right when more sets are pushed. */
  lemma RowsExtend(rules: seq<Rule>, follow: Follow, sets: seq<ItemSet>, sets': seq<ItemSet>,
                   rows: seq<seq<(MixedChar, nat)>>, off: nat, n: nat)
    requires AllOk(rules, sets) && AllOk(rules, sets') && n <= |sets| <= |sets'| && sets'[..|sets|] == sets
    requires off + n <= |rows| && Rows(rules, follow, sets, rows, off, n)
    ensures Rows(rules, follow, sets', rows, off, n)
  {
    forall i | 0 <= i < n ensures RowOk(rules, follow, sets', sets'[i], rows[off + i]) {
      assert sets'[i] == sets'[..|sets|][i];
      RowOkExtend(rules, follow, sets, sets', sets[i], rows[off + i]);
    }
  }

  /** The row of the next set goes after the others. */
  lemma RowsSnoc(rules: seq<Rule>, follow: Follow, sets: seq<ItemSet>, rows: seq<seq<(MixedChar, nat)>>, off: nat, n: nat,
                 row: seq<(MixedChar, nat)>)
    requires AllOk(rules, sets) && n < |sets| && off + n == |rows| && Rows(rules, follow, sets, rows, off, n)
    requires RowOk(rules, follow, sets, sets[n], row)
    ensures Rows(rules, follow, sets, rows + [row], off, n + 1)
  {
    forall i | 0 <= i < n + 1 ensures RowOk(rules, follow, sets, sets[i], (rows + [row])[off + i]) {
      if i < n {
        assert (rows + [row])[off + i] == rows[off + i];
      }
    }
  }

  /** A row stays right when more sets are pushed after the ones it names. */
  lemma RowOkExtend(rules: seq<Rule>, follow: Follow, sets: seq<ItemSet>, sets': seq<ItemSet>, s: ItemSet,
                    row: seq<(MixedChar, nat)>)
    requires SetOk(rules, s) && RowOk(rules, follow, sets, s, row)
    requires |sets| <= |sets'| && sets'[..|sets|] == sets
    ensures RowOk(rules, follow, sets', s, row)
  {
    EntriesExtend(rules, follow, sets, sets', s, row);
  }
}
