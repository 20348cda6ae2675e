# lr_parser in Dafny

A model of `lr_parser`, a Rust crate that reads a context-free grammar as lines of the form
`Clause:Output`, analyses it, and builds LR(0) and LR(1) automata and their ACTION/GOTO tables.
It follows the crate stage by stage:

- **Symbols and rules** (`Syntax`, `Convert`). Terminals, variables and mixed symbols, with their
  derived order: every terminal before every variable, and each kind ordered by its char. Also the
  sentinel symbols, the mutable symbol strings, the rule builders and the rule-line parser.
- **Set-valued maps** (`MapSets`, `Joinable`). `MapSet` and the nested `MapSet` are classes over a
  `map` field; the `JoinAble` unions are on values.
- **Strongly connected components** (`Tarjan`). Tarjan's algorithm (SIAM J. Comput. 1(2), 1972) as
  a class with the search's own fields. It is proved to return the strongly connected components,
  in an order where every component comes after every component it reaches.
- **Rule dependency graph** (`RuleDepend`). Variables are linked when a rule for one starts with
  the other. The components are collapsed into groups; the module also has the flood fills `get`,
  `gets_var` and `gets_rule`, and the topological sort of the groups.
- **FIRST and FOLLOW** (`FirstFollow`). Sets-by-tracking: a depth-first `track_adding` from every
  tracked variable. FOLLOW entries are kept per rule number.
- **Items and item sets** (`ItemNoLookahead`, `ItemLookahead`). Item sets are values. The copy of
  the LR(1) item types inside `src/itemset/lr_one.rs` is the same code and is modelled once.
- **Automata** (`LrZero`, `LrOne`). The worklist `generate_next` builds the automaton, numbering a
  state by structural equality and recording one row of edges per state.
- **Tables** (`Tables`, `TableLrZero`, `TableLrOne`). One state per item set, shift preferred over
  reduce, and the conflict policy of each table: the first or the last end rule wins.

The crate also keeps an older generation of the same pipeline, modelled in its own modules:
`OldSyntax`, `OldRuleDepend`, `OldFirstFollow`, `OldItemset`, `OldParsingtable`, `OldParsingTable`
and the shift-reduce driver `OldParsing`. Where the older code behaves differently, the model says
how:

- `OldRuleDepend`'s grouping takes whole depth-first trees.
- `OldRuleDepend.Get` panics on every grammar.
- `OldParsingtable.Next` reduces before it looks at the input.
- `OldItemset`'s `generate_next` never reuses a state. It is proved to terminate all the same.

Helper modules: `Wrappers` (`Option`, `Result`), `Orders` (least elements and sorting),
`Graphs` (paths and reachability) and `Worklist` (rows and labels).

## Model

| member | source | states |
|---|---|---|
| Syntax.End | src/syntax/mod.rs:16-18 | the end-of-input terminal carries the END_TERMINAL char |
| Syntax.Epsilon | src/syntax/mod.rs:19 | the epsilon terminal carries the EPSILON char |
| Syntax.Accept | src/syntax/mod.rs:27-29 | the accepting variable carries the END_VARIABLE char |
| Syntax.SentinelsDistinct | src/syntax/mod.rs:6-9 | the end terminal, epsilon and the accepting variable are three different symbols |
| Syntax.RankOrdersAsDerived | src/syntax/mod.rs:32-36 | the derived order on `MixedChar` puts every terminal before every variable and orders each kind by its char; equal rank means equal symbol |
| Syntax.RankInjective | src/syntax/mod.rs:32-36 | no two symbols of a set share a rank, so the derived order is total on it |
| Syntax.Ascending | src/itemset/lr_zero.rs:62-64 | a `BTreeSet` of symbols iterated in order: the same members, each once, strictly ascending in the derived order |
| Syntax.MixedString.constructor | src/syntax/mod.rs:50-52 | a new string is empty |
| Syntax.MixedString.PushVariable | src/syntax/mod.rs:53-55 | appends exactly the variable at the end |
| Syntax.MixedString.PushTerminal | src/syntax/mod.rs:56-58 | appends exactly the terminal at the end |
| Syntax.MixedString.Pop | src/syntax/mod.rs:59-61 | removes the last symbol and leaves the rest; does nothing on an empty string |
| Syntax.TerminalString.constructor | src/syntax/mod.rs:71-73 | a new string is empty |
| Syntax.TerminalString.FromChars | src/syntax/convert.rs:37-43 | `From<&[char]>`: one terminal per char, in order, each carrying its char |
| Syntax.TerminalString.PushChar | src/syntax/mod.rs:74-76 | appends the terminal of the char at the end |
| Syntax.TerminalString.PushTerminal | src/syntax/mod.rs:77-79 | appends exactly the terminal at the end |
| Syntax.TerminalString.Pop | src/syntax/mod.rs:80-82 | removes the last terminal and leaves the rest; does nothing on an empty string |
| Syntax.TerminalString.Get | src/syntax/mod.rs:83-85 | `Some(data[i])` exactly when `i` is below the length, else `None` |
| Syntax.TerminalsOf | src/syntax/convert.rs:40 | one terminal per char, in order, each carrying its char |
| Syntax.NewRule | src/syntax/mod.rs:103-108 | the clause carries the given char and the output is empty, so the length is 0 |
| Syntax.AddTerminal | src/syntax/mod.rs:109-111 | the clause is kept, the length grows by one, earlier symbols are unchanged and the new last symbol is the terminal |
| Syntax.AddVariable | src/syntax/mod.rs:113-115 | the clause is kept, the length grows by one, earlier symbols are unchanged and the new last symbol is the variable |
| Syntax.VariablesOf | src/itemset/item_no_lookahead.rs:121 | the variables among a set of symbols: `v` is in it exactly when `Variable(v)` is in the set |
| Convert.TerminalOfChar | src/syntax/convert.rs:2-6 | `From<&char> for Terminal` keeps the char |
| Convert.TryTerminal | src/syntax/convert.rs:7-15 | succeeds exactly on a terminal symbol, with the wrapped terminal |
| Convert.TryVariable | src/syntax/convert.rs:16-24 | succeeds exactly on a variable symbol, with the wrapped variable |
| Convert.ConversionRoundTrip | src/syntax/convert.rs:7-36 | wrapping a terminal or a variable and converting back gives it again, and converting to the other kind fails |
| Convert.SymbolOfChar | src/syntax/convert.rs:62-67 | an ASCII upper-case char becomes a variable and any other char a terminal, both carrying the char |
| Convert.OutputOf | src/syntax/convert.rs:61-68 | one symbol per remaining char, in order, each classified by `SymbolOfChar` |
| Convert.ParseRule | src/syntax/convert.rs:44-71 | the `while let` loop computes exactly the parse `RuleOfLine` describes |
| Convert.ParseRejectsBadClause | src/syntax/convert.rs:49-54 | an empty line, or one whose first char is not ASCII upper-case, is rejected |
| Convert.ParseRejectsBadSeparator | src/syntax/convert.rs:56-60 | a second char other than `:` is rejected |
| Convert.ParseSingleLetter | src/syntax/convert.rs:55-60 | a one-letter upper-case line is an epsilon rule for that letter |
| Convert.ParseSucceeds | src/syntax/convert.rs:47-70 | parsing succeeds exactly on an upper-case first char followed by nothing or by `:`, and then the clause is that char and the output is the classified rest |
| OldSyntax.TryVariable | src/syntax.rs:50-57 | `try_variable(m)` is `Some(v)` exactly when `m` is `Variable(v)` |
| OldSyntax.FromVariable | src/syntax.rs:58-62 | wraps the variable as a symbol that `try_variable` takes back out |
| OldSyntax.TryVariableAsTryFrom | src/syntax.rs:50-57 | `try_variable` succeeds exactly when the newer `Variable::try_from` does, with the same variable |
| OldSyntax.VariablesIn | src/itemset.rs:115 | `filter_map(try_variable)` over a symbol list: exactly the variables among the symbols, no more of them than symbols |
| MapSets.NestedEntry | src/data_structure/map_set.rs:32-34 | `get` on a nested map-set: the stored inner map, or the empty default |
| MapSets.Single | src/data_structure/map_set.rs:20-24 | `new(key, values)` holds exactly `values` under `key` and nothing else |
| MapSets.Added | src/data_structure/map_set.rs:41-43 | `add(k, v)` puts `v` in the set under `k`, keeps that set's other values, creates the key if missing and leaves every other key alone |
| MapSets.Appended | src/data_structure/map_set.rs:44-46 | `append(k, s)` unions `s` into the set under `k` (empty if missing) and leaves every other key alone |
| MapSets.AddedIsAppended | src/data_structure/map_set.rs:41-46 | adding one value is appending the singleton |
| MapSets.Joined | src/data_structure/map_set.rs:81-87 | `join(out, src)` does nothing when `src` is absent; otherwise it unions the set of `src` into that of `out`, leaving every other key alone |
| MapSets.Aggregate | src/data_structure/map_set.rs:50-54 | always `Some`, holding exactly the values stored under some listed key that is present |
| MapSets.All | src/data_structure/map_set.rs:58-62 | always `Some`, holding exactly the values stored under some key |
| MapSets.AggregateWithinAll | src/data_structure/map_set.rs:50-62 | the aggregate over any keys is within the union of all |
| MapSets.AggregateOrderFree | src/data_structure/map_set.rs:50-54 | the aggregate depends only on which keys are listed, not their order or repetitions |
| MapSets.AddedOnce | src/data_structure/map_set.rs:71-73 | `add_once(k, k2, v)` puts `v` under `k` then `k2`, keeping every other inner and outer entry |
| MapSets.MapSet.constructor | src/data_structure/map_set.rs:13-17 | the default map-set is empty |
| MapSets.MapSet.New | src/data_structure/map_set.rs:20-24 | holds exactly `values` under `key` |
| MapSets.MapSet.Get | src/data_structure/map_set.rs:32-34 | the stored set, or the empty default |
| MapSets.MapSet.Add | src/data_structure/map_set.rs:41-43 | the new content is `Added` of the old |
| MapSets.MapSet.Append | src/data_structure/map_set.rs:44-46 | the new content is `Appended` of the old |
| MapSets.MapSet.Join | src/data_structure/map_set.rs:81-87 | the new content is `Joined` of the old |
| MapSets.NestedMapSet.constructor | src/data_structure/map_set.rs:13-17 | the default nested map-set is empty |
| MapSets.NestedMapSet.Get | src/data_structure/map_set.rs:32-34 | the stored inner map, or the empty default |
| MapSets.NestedMapSet.AddOnce | src/data_structure/map_set.rs:71-73 | the new content is `AddedOnce` of the old |
| MapSets.NestedMapSet.Append | src/data_structure/joinable.rs:25-29 | the inner map under the key becomes the pointwise union of the old inner map and the appended one |
| MapSets.NestedMapSet.Join | src/data_structure/map_set.rs:81-87 | nothing changes when the source is absent; otherwise the output's inner map gains every entry of the source's, pointwise |
| Joinable.Entry | src/data_structure/map_set.rs:41-46 | `entry(k).or_default()`: the stored set, or the empty one |
| Joinable.SetAppend | src/data_structure/joinable.rs:13-17 | the result holds both sets and nothing else |
| Joinable.SetAppendIdempotent | src/data_structure/joinable.rs:13-17 | appending the same set twice is appending it once |
| Joinable.SetInsert | src/data_structure/joinable.rs:18-20 | the result holds the old set and the new value and nothing else |
| Joinable.PointwiseUnion | src/data_structure/joinable.rs:25-29 | the keys of either map, each with the union of its two entries |
| Joinable.MapSetAppend | src/data_structure/joinable.rs:25-29 | the key loop leaves exactly the pointwise union |
| Joinable.MapSetInsert | src/data_structure/joinable.rs:30-32 | unions the set into the key's entry, creating it, and leaves every other key alone |
| Joinable.PointwiseUnionIdempotent | src/data_structure/joinable.rs:25-29 | appending the same map twice is appending it once |
| Tarjan.Min | src/tarjan.rs:60 | `min`: no greater than either argument and equal to one of them |
| Tarjan.Tarjan.constructor | src/tarjan.rs:22-35 | a fresh search: counter 0, empty stack, no node numbered, every low-link 0 and no node on the stack |
| Tarjan.Tarjan.Run | src/tarjan.rs:41-49 | after `run` every node is numbered and off the stack, and the components returned form the strongly connected decomposition of the `is_connect` graph: a partition of the nodes whose blocks are exactly the mutual-reachability classes, each emitted after every component it reaches |
| Tarjan.Tarjan.StrongConnect | src/tarjan.rs:50-79 | numbers `u` with the counter, keeps the search invariant, only extends the stack, numbers and low-links below what was there, and appends to the emitted list exactly the components it returns |
| Tarjan.Tarjan.Push | src/tarjan.rs:52-56 | numbers `u` with the counter, sets its low-link to the same number, pushes it and marks it on the stack, and nothing else changes |
| Tarjan.Tarjan.Visit | src/tarjan.rs:57-66 | one successor `v`: an unvisited one is searched from and lowers `u`'s low-link to its own; a stacked one lowers it to `v`'s number; `u` stays where it was on the stack |
| Tarjan.Tarjan.Finish | src/tarjan.rs:67-77 | when `u`'s low-link equals its number, the stack down to `u` is cut off and returned as one component; otherwise nothing changes and nothing is returned |
| Tarjan.Tarjan.PopComponent | src/tarjan.rs:68-75 | the `while let` pop loop: returns exactly the nodes above and including `u`'s position, leaves the stack below it, and clears their on-stack flags |
| Tarjan.EmittedIsDecomposition | src/tarjan.rs:41-79 | once every node is numbered and the invariant holds with an empty stack, the emitted components are the strongly connected decomposition |
| RuleDepend.AnyLeads | src/rule_depend.rs:10-16 | some rule has clause `a` and an output whose first symbol is the variable `b` |
| RuleDepend.IsConnect | src/rule_depend.rs:10-16 | `is_connect(u, v)` holds exactly when both are node numbers and some rule of `nodes[u]` starts with `nodes[v]` |
| RuleDepend.EmptyOutputNeverLeads | src/rule_depend.rs:13 | an epsilon rule links no variable to another, since `data.get(0)` is `None` |
| RuleDepend.SortedVariables | src/rule_depend.rs:53-54 | the clause set collected into a `BTreeSet` and listed: the same variables, each once, in ascending char order |
| RuleDepend.CheckEdge | src/rule_depend.rs:18-27 | true exactly when some member of the first group is connected to some member of the second |
| RuleDepend.CheckEdges | src/rule_depend.rs:29-41 | `j` is in the set under `i` exactly when `i` and `j` are distinct groups that `check_edge` links; no key has an empty set |
| RuleDepend.LinkRow | src/rule_depend.rs:32-38 | the inner loop for group `i`: when `check_edge` links `i` to some other group, `i` gets exactly the set of those groups; otherwise the map is unchanged |
| RuleDepend.RowAdded | src/rule_depend.rs:31-39 | one more row keeps the outer loop's invariant: keys below `i + 1` are exactly the groups with successors, each with exactly its linked groups |
| RuleDepend.IndexGroup | src/rule_depend.rs:59 | sends every variable named by the group's members to the group number and keeps every other entry |
| RuleDepend.IndexGroups | src/rule_depend.rs:58-61 | the fold over the groups: a variable is a key exactly when some group names it, and its entry is the LAST group that names it |
| RuleDepend.Groups | src/rule_depend.rs:55 | the Tarjan run over the variables yields their strongly connected decomposition under `is_connect` |
| RuleDepend.New | src/rule_depend.rs:52-66 | the graph keeps the rules, lists the clauses once each in ascending order, groups them into strongly connected components, indexes every variable to the group holding it, and has exactly the edges between distinct linked groups |
| RuleDepend.IndexingFindsGroup | src/rule_depend.rs:58-61 | over a partition, `indexing` knows exactly the listed variables and sends each to the group containing its number |
| RuleDepend.Flood | src/rule_depend.rs:105-123 | the stack-and-checked-set search from the seed groups visits each group reachable from a seed exactly once, and the output is the concatenation of what each visited group emits, in visiting order |
| RuleDepend.Get | src/rule_depend.rs:67-83 | `get(v)` returns, once each, exactly the variables whose group is reachable from `v`'s group; over the strongly connected groups these are exactly the variables `v` reaches in the variable graph, `v` included |
| RuleDepend.GetsVar | src/rule_depend.rs:105-123 | exactly the variables of the groups reachable from the groups of `vars`, each once, every member of `vars` among them |
| RuleDepend.GetsRule | src/rule_depend.rs:125-145 | exactly the numbers of the rules whose clause lies in a group reachable from a group of `vars`, each once |
| RuleDepend.SeedsReached | src/rule_depend.rs:106 | every variable asked for is among those reached |
| RuleDepend.GroupReachIsLeftReach | src/rule_depend.rs:62 | over the strongly connected groups, a path between two variables gives a path between their groups |
| RuleDepend.GroupReachIsChain | src/rule_depend.rs:62-66 | the group of `v` is reachable from the group of `u` exactly when `v` can be derived at the front of `u` through rules whose outputs start with a variable |
| RuleDepend.ReachedGroupIsLeftReached | src/rule_depend.rs:105-123 | a variable's group is reached from `vars` exactly when some member of `vars` left-reaches it |
| RuleDepend.GetsRuleIsLeftReached | src/rule_depend.rs:125-145 | stated on the rules alone: `gets_rule(vars)` holds exactly the rules whose clause some variable of `vars` left-reaches, which is what the LR(0) closure needs |
| RuleDepend.EdgesGoDown | src/rule_depend.rs:62 | every group edge leads to a group emitted earlier, because Tarjan emits a component after every component it reaches |
| RuleDepend.TopoRecur | src/rule_depend.rs:85-94 | the depth-first visit: `node` ends in the output, the visited set only grows, and the output stays a post-order in which every edge of an emitted group leads to a group emitted before it |
| RuleDepend.Successors | src/rule_depend.rs:90 | the successor set of a group listed in ascending order, empty when it has no key |
| RuleDepend.Toposort | src/rule_depend.rs:96-103 | every group emitted exactly once in post-order, each named by its variables; every variable is in exactly one set, and if a rule of `x` starts with `y` then `y`'s set comes no later than `x`'s |
| RuleDepend.LayeredCover | src/rule_depend.rs:96-103 | every listed variable is in some output set, and nothing else is |
| FirstFollow.TrackAdding | src/first_follow.rs:9-20 | the depth-first walk from `current`: every set stays within what is gathered from the sets before the walk and only grows; each node it newly visits has all its successors visited and its old set joined into `current`'s |
| FirstFollow.TrackAll | src/first_follow.rs:41-43 | after `track_adding` from every key, each variable's set holds exactly the values stored, before the loop, under some variable it reaches along track edges |
| FirstFollow.CompleteEverywhere | src/first_follow.rs:41-43 | once every key is done, a set is complete exactly when it holds all that its reachable variables held |
| FirstFollow.FromRule | src/first_follow.rs:29-45 | FIRST(A) holds terminal `t` exactly when `A` reaches, through rules starting with a variable, a variable with a rule starting with `t`; `empty` holds exactly the clauses of epsilon rules |
| FirstFollow.FirstHasLeadingTerminal | src/first_follow.rs:36 | a rule `A -> t ...` puts `t` in FIRST(A) |
| FirstFollow.FirstHasLeadingFirst | src/first_follow.rs:37-43 | a rule `A -> B ...` puts all of FIRST(B) in FIRST(A) |
| FirstFollow.TagAll | src/first_follow.rs:87 | `MapSet::new(rule_id, set)`: the terminals of the set, each tagged with the rule number |
| FirstFollow.FollowBaseStep | src/first_follow.rs:68-90 | reading one position of a rule: a variable with a symbol after it appends that terminal, or the next variable's FIRST set, tagged with the rule; any other position adds nothing |
| FirstFollow.FollowTrackStep | src/first_follow.rs:69-85 | reading one position: a variable other than the clause that ends the rule, or is followed by a variable with an empty rule, gets a track edge to the clause; nothing else adds an edge |
| FirstFollow.FollowRule | src/first_follow.rs:66-91 | one pass of the rule loop takes both maps from the entries of the rules before `r` to those of the rules up to `r` |
| FirstFollow.NewFollow | src/first_follow.rs:62-97 | FOLLOW(v) holds a tagged terminal exactly when `v` reaches along track edges a variable whose direct entries hold it |
| FirstFollow.FollowHasNextTerminal | src/first_follow.rs:79-80 | a terminal right after variable `v` in rule `r` follows `v`, tagged `r` |
| FirstFollow.FollowHasNextFirst | src/first_follow.rs:81-88 | the FIRST terminals of the variable right after `v` in rule `r` follow `v`, tagged `r` |
| FirstFollow.FollowHasClauseFollow | src/first_follow.rs:69-85 | a variable other than the clause that ends rule `r`, or is followed by a variable with an empty rule, takes in everything that follows the clause |
| FirstFollow.Follow.Get | src/first_follow.rs:98-100 | the terminals of every tag stored under the key, and none for an absent key |
| FirstFollow.Follow.GetFiltered | src/first_follow.rs:101-103 | the terminals stored under the key with a tag among the allowed rule numbers |
| FirstFollow.GetFilteredWithinGet | src/first_follow.rs:98-103 | the filtered set is within the full one, and equal to it when every tag under the key is allowed |
| ItemNoLookahead.Shift | src/itemset/item_no_lookahead.rs:18-20 | the same rule with the dot one step on, as a kernel item |
| ItemNoLookahead.Symbol | src/itemset/item_no_lookahead.rs:21-23 | the symbol right after the dot, and none exactly when the dot is at the end of the rule |
| ItemNoLookahead.IsEnd | src/itemset/item_no_lookahead.rs:25-27 | true exactly when the dot is at the end of the rule |
| ItemNoLookahead.SymbolOrEnd | src/itemset/item_no_lookahead.rs:18-27 | a well-formed item has a symbol after its dot or is at the end, never both, and shifting over the symbol keeps it well-formed |
| ItemNoLookahead.SymbolsOf | src/itemset/item_no_lookahead.rs:47-51 | what `symbols` is meant to hold: exactly the symbols after the dots of the items |
| ItemNoLookahead.Empty | src/itemset/item_no_lookahead.rs:60-62 | no items and no symbols |
| ItemNoLookahead.AddRule | src/itemset/item_no_lookahead.rs:63-78 | `add_rule` (non-kernel) and `add_kernel`: the one new item, and the rule's symbol at the dot recorded when there is one |
| ItemNoLookahead.AddRuleConsistent | src/itemset/item_no_lookahead.rs:63-78 | adding a rule's item keeps `symbols` exactly the symbols after the dots |
| ItemNoLookahead.AddItem | src/itemset/item_no_lookahead.rs:80-85 | the item added, and its symbol recorded when it has one |
| ItemNoLookahead.MovedOk | src/itemset/item_no_lookahead.rs:87-98 | shifting well-formed items over a symbol gives well-formed items |
| ItemNoLookahead.MovedStep | src/itemset/item_no_lookahead.rs:89-93 | looking at one more item either adds its shift or leaves the new set as it was |
| ItemNoLookahead.Transitions | src/itemset/item_no_lookahead.rs:87-98 | `None` exactly when no item has the symbol after its dot; otherwise the shifts of exactly those items, with their symbols |
| ItemNoLookahead.MovedShifted | src/itemset/item_no_lookahead.rs:87-98 | every item of a transition is a kernel item whose dot is past the start of its rule |
| ItemNoLookahead.LeastItem | src/itemset/item_no_lookahead.rs:9-14 | the item a `BTreeSet<Item>` yields first: the least one in the derived order (rule number, then kernel flag, then dot) |
| ItemNoLookahead.IsPrevious | src/itemset/item_no_lookahead.rs:100-109 | `None` exactly when no item of the other set is an item of this one with the dot one step on; otherwise the symbol after the dot of the least such item of this set in `BTreeSet` order, which links the sets by that symbol |
| ItemNoLookahead.LinkedIsLabel | src/itemset/item_no_lookahead.rs:100-109 | when every item of the other set past its rule's start is a shift over `c`, every symbol a linked pair can answer is `c` |
| ItemNoLookahead.LinkedToMoved | src/itemset/item_no_lookahead.rs:100-109 | a set holding the transition over `c` is linked from the set it came from, by `c` |
| ItemNoLookahead.EndItems | src/itemset/item_no_lookahead.rs:111-118 | exactly the items whose dot is at the end |
| ItemNoLookahead.Reduce | src/itemset/item_no_lookahead.rs:111-118 | exactly the rules of the end items |
| ItemNoLookahead.SymbolVariables | src/itemset/item_no_lookahead.rs:121 | the variables among the symbols, in `BTreeSet` order: `v` is listed exactly when `Variable(v)` is a symbol |
| ItemNoLookahead.AddNonKernel | src/itemset/item_no_lookahead.rs:120-134 | `add_non_kernel` and `get_non_kernel`: the set with a start item added for every rule that a symbol of the set left-reaches |
| ItemNoLookahead.AddEach | src/itemset/item_no_lookahead.rs:122-124 | the `add_rule` loop over the rule numbers adds a start item for each listed rule, in any order |
| ItemNoLookahead.AddRulesIsWithRules | src/itemset/item_no_lookahead.rs:122-124 | adding the rules one after another gives the set that depends only on which rules were listed |
| ItemNoLookahead.NonKernelsAreClosure | src/itemset/item_no_lookahead.rs:121 | the rules `gets_rule` returns for the set's variables are exactly those the closure must add |
| ItemNoLookahead.ClosureClosed | src/itemset/item_no_lookahead.rs:120-125 | the closure is closed: every item with a variable after its dot has the start item of each rule of that variable beside it |
| ItemNoLookahead.ClosureLeast | src/itemset/item_no_lookahead.rs:120-125 | the closure is the least such set: any closed set holding the items holds the closure |
| ItemNoLookahead.Project | src/itemset/item_no_lookahead.rs:144 | the item without its lookahead: same rule, kernel flag and dot |
| ItemNoLookahead.FromLookahead | src/itemset/item_no_lookahead.rs:139-151 | the lookahead items projected, duplicates merged, and the same symbols |
| ItemNoLookahead.ProjectMoved | src/itemset/item_no_lookahead.rs:139-151 | dropping lookaheads commutes with `transitions` |
| ItemLookahead.Shift | src/itemset/item_lookahead.rs:16-18 | the same rule and lookahead with the dot one step on, as a kernel item |
| ItemLookahead.Symbol | src/itemset/item_lookahead.rs:19-21 | the symbol right after the dot, and none exactly when the dot is at the end |
| ItemLookahead.IsEnd | src/itemset/item_lookahead.rs:23-25 | true exactly when the dot is at the end of the rule |
| ItemLookahead.SymbolOrEnd | src/itemset/item_lookahead.rs:16-25 | a symbol after the dot or the end, never both; shifting keeps the item well-formed and reaches the end exactly from the last position |
| ItemLookahead.SymbolsOf | src/itemset/item_lookahead.rs:49-53 | exactly the symbols after the dots of the items |
| ItemLookahead.Empty | src/itemset/item_lookahead.rs:62-64 | no items and no symbols |
| ItemLookahead.SymbolAt | src/itemset/item_lookahead.rs:72-74 | the rule's symbol at the dot, if any, as a set |
| ItemLookahead.AddRule | src/itemset/item_lookahead.rs:65-86 | `add_rule` and `add_kernel`: one item per lookahead, and the symbol at the dot recorded even when there is no lookahead |
| ItemLookahead.AddRuleConsistent | src/itemset/item_lookahead.rs:65-86 | with at least one lookahead `symbols` stays exact; with none, a new symbol is recorded that no item carries |
| ItemLookahead.AddItem | src/itemset/item_lookahead.rs:88-95 | the item added, and its symbol recorded when it has one |
| ItemLookahead.MovedItems | src/itemset/item_lookahead.rs:97-108 | the moved items are exactly the shifts of the items with the symbol after the dot, all kernel items past their rule's start, with exact symbols |
| ItemLookahead.MovedOk | src/itemset/item_lookahead.rs:97-108 | shifting well-formed items gives well-formed items |
| ItemLookahead.MovedStep | src/itemset/item_lookahead.rs:99-103 | one more item either adds its shift or leaves the new set alone |
| ItemLookahead.Transitions | src/itemset/item_lookahead.rs:97-108 | `None` exactly when no item has the symbol after its dot; otherwise the shifted items |
| ItemLookahead.LeastItem | src/itemset/item_lookahead.rs:5-11 | the item a `BTreeSet<Item>` yields first: the least one in the derived order (rule number, kernel flag, dot, then the lookahead's char) |
| ItemLookahead.IsPrevious | src/itemset/item_lookahead.rs:110-119 | `None` exactly when no linked pair exists; otherwise the symbol after the dot of the least linked item of this set in `BTreeSet` order, which links the sets by that symbol |
| ItemLookahead.LinkedIsLabel | src/itemset/item_lookahead.rs:110-119 | when every item of the other set past its rule's start is a shift over `c`, every symbol a linked pair can answer is `c` |
| ItemLookahead.LinkedToMoved | src/itemset/item_lookahead.rs:110-119 | a set holding the transition over `c` is linked from the set it came from, by `c` |
| ItemLookahead.EndItems | src/itemset/item_lookahead.rs:121-128 | exactly the items whose dot is at the end |
| ItemLookahead.Reduce | src/itemset/item_lookahead.rs:121-128 | exactly the pairs of an end item's rule and its lookahead |
| LrZero.Goto | src/itemset/lr_zero.rs:65-67 | `transitions` then `add_non_kernel`: a state exactly when some item has the symbol after its dot, and then the closure of the shifted items |
| LrZero.ClosureConsistent | src/itemset/lr_zero.rs:56 | closing a consistent set keeps it consistent: well-formed items, `symbols` exactly the symbols after the dots |
| LrZero.StartConsistent | src/itemset/lr_zero.rs:53-56 | the start state is consistent and holds the kernel item of the first rule at dot 0 |
| LrZero.GotoConsistent | src/itemset/lr_zero.rs:65-67 | a state reached on a symbol is consistent and never holds the start item |
| LrZero.EverySymbolMoves | src/itemset/lr_zero.rs:64-66 | in a consistent set every recorded symbol moves some item, so `transitions` never returns `None` for it |
| LrZero.ConsistentIndexed | src/itemset/lr_zero.rs:67 | in a grammar where every variable after the first symbol of an output, and a variable starting rule 0, has a rule, the variables after the dots of a consistent set whose items are past their rule's start or of rule 0 are all indexed, so `gets_rule` does not panic |
| LrZero.ItemSets.constructor | src/itemset/lr_zero.rs:30-32 | `new`: the end rule alone, no sets and no rows |
| LrZero.ItemSets.AddRule | src/itemset/lr_zero.rs:33-35 | the rule goes last; sets and rows unchanged |
| LrZero.ItemSets.AddFromString | src/itemset/lr_zero.rs:37-43 | returns true exactly when the line parses, and then appends the parsed rule; otherwise nothing changes |
| LrZero.ItemSets.Clear | src/itemset/lr_zero.rs:45-48 | sets and rows emptied, the rules kept |
| LrZero.ItemSets.GenerateNext | src/itemset/lr_zero.rs:50-80 | the old sets stay as a prefix, the start state is pushed after them, one row is written per set in order, and each row lists, in ascending symbol order, exactly the symbols that move the set, each naming a set equal to its goto; the new sets are consistent and pairwise distinct |
| LrZero.Generation | src/itemset/lr_zero.rs:50-80 | the same facts on values: sets and rows before and after one `generate_next` |
| LrZero.Prepare | src/itemset/lr_zero.rs:52-56 | the rule graph of the rules and the closed start state |
| LrZero.StartState | src/itemset/lr_zero.rs:53-56 | `add_kernel` of rule 0 at dot 0 then `add_non_kernel` gives the start state |
| LrZero.Generate | src/itemset/lr_zero.rs:57-79 | the worklist loop: every set from the first on gets its row, every pushed set is consistent, and `itemmaps` lists each set pushed after the start state at its place |
| LrZero.Expand | src/itemset/lr_zero.rs:59-77 | one set taken from the worklist: its row is complete and ascending, and `itemmaps` grows by exactly the sets pushed |
| LrZero.Step | src/itemset/lr_zero.rs:65-75 | one symbol: a known goto is named by its place, a new one is pushed and mapped to the next place, and a symbol that moves nothing adds no entry |
| LrZero.GotoOf | src/itemset/lr_zero.rs:65-67 | the computed goto equals `Goto` |
| LrOne.RuleIds | src/itemset/lr_one.rs:175 | the rule numbers of the items: `k` is listed exactly when some item is of rule `k` |
| LrOne.StartKernel | src/itemset/lr_one.rs:151-153 | `add_kernel` of rule 0 at dot 0 with lookahead epsilon: that one item, and the rule's first symbol |
| LrOne.Goto | src/itemset/lr_one.rs:171-179 | a state exactly when some item has the symbol after its dot, and then the shifted items closed with filtered FOLLOW lookaheads |
| LrOne.StartBounded | src/itemset/lr_one.rs:151-162 | the first set is well-formed, its lookaheads lie within FOLLOW's and epsilon, and its only kernel item is the start item |
| LrOne.StartKernelOk | src/itemset/lr_one.rs:153 | the start kernel names only grammar symbols and only rule 0 |
| LrOne.GotoBounded | src/itemset/lr_one.rs:171-179 | a set reached on a symbol is well-formed and bounded, its kernel items are exactly the shifted ones, and it never holds the start item |
| LrOne.ClosureBounded | src/itemset/lr_one.rs:173-179 | closing a bounded set keeps it bounded: the lookaheads added are ones FOLLOW records |
| LrOne.FilteredKnown | src/first_follow.rs:101-103 | every filtered FOLLOW terminal is a terminal FOLLOW records |
| LrOne.WithLookaheadsRules | src/itemset/lr_one.rs:175-177 | while the closure loop runs, the rule numbers of the set together with `non_kernels` stay those of the set before it, so the filter it uses does not change |
| LrOne.ItemSets.constructor | src/itemset/lr_one.rs:128-130 | `new`: the end rule alone, no sets and no rows |
| LrOne.ItemSets.AddRule | src/itemset/lr_one.rs:131-133 | the rule goes last; sets and rows unchanged |
| LrOne.ItemSets.AddFromString | src/itemset/lr_one.rs:135-141 | true exactly when the line parses, and then the parsed rule is appended; otherwise nothing changes |
| LrOne.ItemSets.Clear | src/itemset/lr_one.rs:143-146 | sets and rows emptied, the rules kept |
| LrOne.ItemSets.GenerateNext | src/itemset/lr_one.rs:148-192 | with FOLLOW computed from FIRST: the old sets stay as a prefix, the closed start set is pushed after them, one row per set lists in ascending order exactly the symbols that move it, each naming a set equal to its goto; the new sets are bounded and pairwise distinct |
| LrOne.Generation | src/itemset/lr_one.rs:148-192 | the same facts on values |
| LrOne.Prepare | src/itemset/lr_one.rs:150-163 | the rule graph, the FOLLOW sets built from the FIRST sets, and the closed first set |
| LrOne.StartState | src/itemset/lr_one.rs:151-162 | the first set: the start kernel closed with the lookaheads FOLLOW gives by rule 0 or a closure rule |
| LrOne.AddLookaheads | src/itemset/lr_one.rs:158-162 | the loop closing the first set adds, for each listed rule, one start item per filtered lookahead |
| LrOne.AddClosure | src/itemset/lr_one.rs:173-179 | the loop closing a reached set adds, for each listed rule, one start item per lookahead FOLLOW gives its clause by a rule of the set or of the closure |
| LrOne.CloseSuccessor | src/itemset/lr_one.rs:173-179 | the closure of a reached set |
| LrOne.Generate | src/itemset/lr_one.rs:164-191 | the worklist loop: every set from the first on gets its row, every pushed set is bounded, and `itemmaps` lists each set pushed after the start at its place |
| LrOne.Expand | src/itemset/lr_one.rs:165-190 | one set taken from the worklist gets its complete, ascending row, and `itemmaps` grows by exactly the sets pushed |
| LrOne.Step | src/itemset/lr_one.rs:171-187 | one symbol: a known goto named by its place, a new one pushed and mapped to the next place, a symbol that moves nothing skipped |
| LrOne.GotoOf | src/itemset/lr_one.rs:171-179 | the computed goto equals `Goto` |
| LrOne.PushNew | src/itemset/lr_one.rs:184-186 | pushing a new set keeps the prefix, maps it to its place and appends its entry to the row |
| Tables.InOrderDistinct | src/parsing_table/mod.rs:67-71 | a row written in ascending symbol order repeats no symbol, so inserting its pairs loses none |
| Tables.RowMap | src/parsing_table/mod.rs:68-70 | inserting a row's pairs into an empty map: the row's symbols are the keys, and each key maps to a target it is paired with |
| Tables.RowMapExact | src/parsing_table/mod.rs:68-70 | for a row without repeated symbols, the map holds exactly the row's pairs |
| Tables.Edges | src/parsing_table/mod.rs:64-71 | one empty state per item set, then each state with a row gets exactly that row's edges and the rest none |
| Tables.Current | src/parsing_table/mod.rs:48 | `rest.unwrap_or(epsilon)`: the input terminal, or epsilon when the input is used up |
| Tables.ReduceBy | src/parsing_table/mod.rs:53-58 | `Accept` exactly when the rule's clause is the accepting variable, else `Reduce` by the clause and the output length |
| Tables.Next | src/parsing_table/mod.rs:46-62 | shift along an edge on the current terminal if there is one; else reduce (or accept) by the rule stored for that terminal; reject exactly when there is neither |
| Tables.ReduceState | src/parsing_table/mod.rs:42-44 | the target on the variable, or 0 when there is no such edge |
| Tables.EdgesOfRow | src/parsing_table/mod.rs:42-44 | in a state built from a row, `reduce_state` gives the row's target for the variable, and 0 exactly when the row has no entry for it or maps it to 0 |
| Tables.LeastRule | src/parsing_table/mod.rs:73-74 | the next end item in `BTreeSet` order: one of least rule number |
| Tables.LastWins | src/parsing_table/mod.rs:74-79 | every insert overwrites: for each lookahead of an end item, the table holds the rule of an end item with that lookahead of greatest rule number, and there is no other key |
| Tables.LastStep | src/parsing_table/mod.rs:78 | inserting an item no earlier than every item seen keeps the table last-wins |
| Tables.FromItemset | src/parsing_table/mod.rs:63-82 | one state per set, the edges of the row at the same index, and the last-wins table of the set's end items; the conflict report changes nothing |
| Tables.NextLastWins | src/parsing_table/mod.rs:46-82 | in a built state: shift exactly along the row's pairs on the current terminal; otherwise reduce by the greatest-numbered end item with that lookahead; reject exactly when there is neither |
| TableLrZero.LeastEnd | src/parsing_table/lr_zero.rs:70-71 | the next end item in set order: one of least rule number |
| TableLrZero.FirstRule | src/parsing_table/lr_zero.rs:71-77 | the first end rule is kept and later ones skipped: none exactly when there is no end item, else the rule of a least-numbered one |
| TableLrZero.FirstEndStep | src/parsing_table/lr_zero.rs:72-76 | a later item changes nothing once a rule is kept, and is kept when none was |
| TableLrZero.FromItemset | src/parsing_table/lr_zero.rs:60-80 | one state per set, the edges of its row, and the first end rule of the set |
| TableLrZero.NextAction | src/parsing_table/lr_zero.rs:43-59 | shift along an edge on the current terminal; else reduce (or accept) by the state's rule whatever the terminal; reject exactly when there is neither |
| TableLrZero.NextFirstEnd | src/parsing_table/lr_zero.rs:43-80 | in a built state: shift exactly along the row's pairs; otherwise reduce by a least-numbered end item, the same for every terminal without an edge; reject exactly when the set has no edge on the terminal and no end item |
| TableLrZero.ShiftFollowsGoto | src/parsing_table/lr_zero.rs:43-48 | on the generated automaton, `next_action` shifts on a terminal exactly when the state moves on it, and to the state its goto reaches |
| TableLrZero.GotoFollowsAutomaton | src/parsing_table/lr_zero.rs:39-41 | on the generated automaton, `reduce_state` on a variable the state moves on is the state its goto reaches |
| TableLrOne.FirstWins | src/parsing_table/lr_one.rs:51-56 | an insert happens only for a lookahead not yet present: for each lookahead of an end item, the rule of an end item with that lookahead of least rule number, and no other key |
| TableLrOne.FirstStep | src/parsing_table/lr_one.rs:52-55 | a later item never replaces a stored rule, and fills an absent lookahead |
| TableLrOne.FromItemset | src/parsing_table/lr_one.rs:40-59 | one state per set, the edges of its row, and the first-wins table of its end items |
| TableLrOne.NextFirstWins | src/parsing_table/lr_one.rs:61-77 | in a built state: shift exactly along the row's pairs; otherwise reduce by the least-numbered end item with the current lookahead; reject exactly when there is neither |
| TableLrOne.ShiftFollowsGoto | src/parsing_table/lr_one.rs:61-66 | on the generated LR(1) automaton, a shift on a terminal happens exactly when the state moves on it, to the state its goto reaches |
| TableLrOne.GotoFollowsAutomaton | src/parsing_table/lr_one.rs:78-80 | on the generated LR(1) automaton, `reduce_state` on a variable the state moves on is the state its goto reaches |
| OldRuleDepend.Connects | src/ruledepend.rs:9 | where the scan never reads an empty output, the filter-and-peek finds a rule for `a` that starts with `b` exactly when one exists |
| OldRuleDepend.IsConnect | src/ruledepend.rs:8-10 | where the scan is safe, `is_connect` is the same relation as the newer test of src/rule_depend.rs |
| OldRuleDepend.NonEmptyScannable | src/ruledepend.rs:9 | when no rule for the clause has an empty output, the `data[0]` the scan reads always exists |
| OldRuleDepend.EmptyFirstNotScannable | src/ruledepend.rs:9 | a rule for the clause with an empty output, met before any match, makes the scan index past that output |
| OldRuleDepend.Tarjan.constructor | src/ruledepend.rs:25-37 | counter 0, empty stack, every node unnumbered with lowlink 0 and not on the stack |
| OldRuleDepend.Tarjan.Push | src/ruledepend.rs:53-57 | `u` gets the next number as its index and lowlink, the counter goes up by one, and `u` is stacked and marked |
| OldRuleDepend.Tarjan.Explore | src/ruledepend.rs:52-68 | numbers `u` and visits its successors in order; nothing is popped, so the stack grows by exactly the nodes it numbers, each reachable from `u`, all of whose successors end up numbered |
| OldRuleDepend.Tarjan.Try | src/ruledepend.rs:58-67 | one round of the successor loop keeps the exploration invariant one successor further |
| OldRuleDepend.Tarjan.Visit | src/ruledepend.rs:59-63 | an unnumbered successor is explored and `u`'s lowlink lowered; everything pushed is reachable from `u` |
| OldRuleDepend.Tarjan.PopTree | src/ruledepend.rs:71-79 | popping down to `u` takes every node the search from `u` pushed, and empties the stack |
| OldRuleDepend.Tarjan.StrongConnect | src/ruledepend.rs:69-80 | the group holds `u` and exactly the nodes newly numbered, each reachable from `u`, and the stack is empty again |
| OldRuleDepend.Tarjan.Run | src/ruledepend.rs:43-51 | the groups are the trees of a depth-first search in increasing node order: a partition where each group is everything its root reaches that no earlier group holds |
| OldRuleDepend.LoneEdgeNotStrong | src/ruledepend.rs:43-80 | for `A -> a`, `A -> B`, `B -> b`, `A` and `B` share a group although `B` does not reach `A`, so the groups are not strongly connected components |
| OldRuleDepend.LoneEdgeVariables | src/ruledepend.rs:117-118 | the sorted clauses of those rules are `A` then `B` |
| OldRuleDepend.New | src/ruledepend.rs:116-130 | the graph keeps the rules, its groups partition the sorted clauses as the depth-first search leaves them, `indexing` finds each variable's group, and every group edge goes to an earlier group |
| OldRuleDepend.DfsEdgesGoDown | src/ruledepend.rs:94-106 | with depth-first groups, a group edge always leads to a group popped earlier |
| OldRuleDepend.FloodUnwrap | src/ruledepend.rs:132-146 | the worklist search panics (`None`) exactly when it reaches a node without an edge entry; otherwise it outputs each reached node once |
| OldRuleDepend.Get | src/ruledepend.rs:131-147 | panics exactly when some group reachable from `v`'s group has no successor entry; otherwise yields exactly the variables whose groups `v`'s group reaches |
| OldRuleDepend.GetAlwaysPanics | src/ruledepend.rs:141 | on a graph whose group edges all go down, as `new` builds, some reachable group has no successors, so `get` panics for every variable |
| OldFirstFollow.First.Get | src/firstfollow.rs:40 | a FIRST set read through `MapSet::get`: the stored set, or empty for a variable with no entry |
| OldFirstFollow.PopFirst | src/firstfollow.rs:34 | `pop_first` on a non-empty group: a member with the least char |
| OldFirstFollow.JoinAll | src/firstfollow.rs:37-39 | joining every returned variable into `firstvar`: its set gains exactly theirs, and no other entry changes |
| OldFirstFollow.SetAll | src/firstfollow.rs:41-43 | every other variable of the group gets exactly the copied set, and variables outside it are untouched |
| OldFirstFollow.SettleGroup | src/firstfollow.rs:34-43 | after one group, all its variables hold the terminals of every variable whose group it reaches; finished groups stay finished and the rest keep their direct terminals |
| OldFirstFollow.DirectTerminals | src/firstfollow.rs:24-31 | the first loop stores, under each clause, exactly the terminals its rules start with |
| OldFirstFollow.GroupOrder | src/rule_depend.rs:96-103 | `toposort`, of src/rule_depend.rs, which src/firstfollow.rs:33 calls: every group listed exactly once, as its set of variables |
| OldFirstFollow.FromRule | src/firstfollow.rs:23-46 | each variable's FIRST set is exactly the direct terminals of the variables whose groups its group reaches |
| OldFirstFollow.LeadingTerminalPooled | src/firstfollow.rs:27-30 | a rule `A -> t ...` puts `t` in the FIRST set of `A` |
| OldFirstFollow.GroupShares | src/firstfollow.rs:40-43 | two variables in one group end with the same FIRST set |
| OldFirstFollow.PoolIsTracked | src/firstfollow.rs:33-43 | over strongly connected groups, the result is exactly the FIRST set src/first_follow.rs computes by tracking leading variables |
| OldFirstFollow.LoneEdgeFirstTooLarge | src/firstfollow.rs:33-43 | for `A -> a`, `A -> B`, `B -> b` with the groups of src/ruledepend.rs, the FIRST set of `B` holds `a` |
| OldFirstFollow.LoneEdgeFirstOfB | src/first_follow.rs:29-45 | for the same rules, no derivation of `B` starts with `a`, so the tracked FIRST set leaves it out |
| OldFirstFollow.Follow.Get | src/firstfollow.rs:92-94 | the stored FOLLOW set, or empty for a variable with no entry |
| OldFirstFollow.AsNew | src/firstfollow.rs:80 | the older FIRST sets read as newer ones with no empty rules |
| OldFirstFollow.Terminals | src/firstfollow.rs:79-80 | the terminals of a set of rule-tagged terminals, whatever the tag |
| OldFirstFollow.Untag | src/firstfollow.rs:79-80 | the same keys, each set with its tags dropped |
| OldFirstFollow.UntagAppended | src/firstfollow.rs:80 | dropping tags commutes with `append` |
| OldFirstFollow.UntagAdded | src/firstfollow.rs:79 | dropping tags turns adding a tagged terminal into `add` of the terminal |
| OldFirstFollow.BaseStep | src/firstfollow.rs:68-82 | the direct entries grow at a position by the next terminal, or the next variable's FIRST set, of a variable not at the end |
| OldFirstFollow.TrackStep | src/firstfollow.rs:69-75 | the track edges grow at a position exactly by the edge from a last variable to a different clause |
| OldFirstFollow.FollowAt | src/firstfollow.rs:68-82 | one position of the rule loop leaves the entries and track edges of all positions up to and including it |
| OldFirstFollow.FollowRule | src/firstfollow.rs:66-83 | one rule adds exactly its direct entries and track edges |
| OldFirstFollow.NewFollow | src/firstfollow.rs:63-91 | `t` follows `v` exactly when some variable `v` is tracked to directly holds `t` |
| OldFirstFollow.UntagGathers | src/firstfollow.rs:86-88 | tracking before or after dropping tags collects the same terminals |
| OldFirstFollow.FollowIsNewGet | src/first_follow.rs:98-100 | without empty rules, the older FOLLOW set is what the newer `Follow::get` returns |
| OldFirstFollow.FollowHasNextTerminal | src/firstfollow.rs:79 | a terminal right after `v` in some rule follows `v` |
| OldFirstFollow.FollowHasNextFirst | src/firstfollow.rs:80 | the FIRST set of the variable right after `v` follows `v` |
| OldFirstFollow.FollowHasClauseFollow | src/firstfollow.rs:72-74 | a variable ending a rule, other than its clause, has everything that follows the clause |
| OldItemset.Shift | src/itemset.rs:17-19 | the same rule with the dot one further |
| OldItemset.Symbol | src/itemset.rs:20-22 | the symbol right after the dot, and none exactly when the dot is at the end of the rule |
| OldItemset.IsEnd | src/itemset.rs:24-26 | true exactly when the dot equals the rule's length |
| OldItemset.SymbolOrEnd | src/itemset.rs:20-26 | an item has a next symbol exactly when it is not at the end, and shifting it then stays within its rule |
| OldItemset.SymbolsOf | src/itemset.rs:42-44 | the symbols recorded for a list of items: no more of them than items |
| OldItemset.SymbolsOfMember | src/itemset.rs:42-51 | a symbol is recorded exactly when some item has it after its dot |
| OldItemset.Empty | src/itemset.rs:36-38 | no items and no symbols |
| OldItemset.AddRuleAt | src/itemset.rs:39-45 | the item is appended, and its rule's symbol at the dot recorded when there is one |
| OldItemset.AddRuleOk | src/itemset.rs:39-45 | adding an item of a known rule, dot within the rule, keeps the set well-formed |
| OldItemset.AddItem | src/itemset.rs:47-53 | the item is appended, and its symbol after the dot recorded when there is one |
| OldItemset.ShiftedOver | src/itemset.rs:57-62 | the items moved over `c`: no more than there were, all past their first symbol |
| OldItemset.ShiftedOverMember | src/itemset.rs:57-62 | an item is there exactly when it is the shift of an item with `c` after its dot |
| OldItemset.MovedOk | src/itemset.rs:55-67 | the transition is non-empty exactly when something moves over `c`, well-formed, and no larger |
| OldItemset.MovesIffShifted | src/itemset.rs:63 | something moves over `c` exactly when the shifted list is non-empty |
| OldItemset.ShiftAll | src/itemset.rs:56-62 | the loop leaves the shifted items, with exactly their symbols recorded |
| OldItemset.Transitions | src/itemset.rs:55-67 | `None` exactly when nothing moves over `c`, else the set of shifted items |
| OldItemset.FirstLinked | src/itemset.rs:70-76 | the first item of `s` some item of `other` follows one dot further, or none when there is no such item |
| OldItemset.SafeWhenOk | src/itemset.rs:73 | when `other` is well-formed, every linked item has a symbol, so the `unwrap` never panics |
| OldItemset.Previous | src/itemset.rs:69-78 | none exactly when no item of `s` is followed in `other`; else the symbol after the dot of a followed item |
| OldItemset.IsPrevious | src/itemset.rs:69-78 | the nested loops return the symbol of the first linked pair |
| OldItemset.PreviousIsLabel | src/itemset.rs:69-78 | when every moved item of `other` is a shift over `c`, the symbol found is `c` or none |
| OldItemset.LinkedToMoved | src/itemset.rs:69-78 | a set holding the transition of `s` over `c`, otherwise only dot-0 items, is linked from `s` by exactly `c` |
| OldItemset.FirstEnd | src/itemset.rs:81-85 | the position of the first end item, or none exactly when there is none |
| OldItemset.ReduceOf | src/itemset.rs:80-87 | none exactly when no item is at its end; else the rule length and clause of the first end item |
| OldItemset.Reduce | src/itemset.rs:80-87 | the loop returns that first end item's length and clause |
| OldItemset.AddRules | src/itemset.rs:116-118 | the old items kept in front, then one dot-0 item per rule number, in order |
| OldItemset.AddRulesOk | src/itemset.rs:116-118 | adding known rules at dot 0 keeps the set well-formed |
| OldItemset.AddEach | src/itemset.rs:116-118 | the kernel-list loop adds exactly those items |
| OldItemset.SymbolsAreClauses | src/itemset.rs:115 | when every variable after a dot of the set has a rule, each has a group, so the `indexing` lookup does not panic |
| OldItemset.ShiftedSymbolsHaveRules | src/itemset.rs:109-115 | in a set whose items are all past the start of their rules, every variable after a dot has a rule when every variable after the first symbol of an output does |
| OldItemset.LookedUp | src/itemset.rs:114-115 | the set the loop is about to close, a starting set or an appended transition, has every variable after its dots indexed |
| OldItemset.KidsOfMember | src/itemset.rs:108-113 | a set is pushed exactly when it is the transition over one of the symbols that something moves over |
| OldItemset.KidsOk | src/itemset.rs:108-113 | every pushed set is well-formed, non-empty, no larger than its parent and deeper into its rules |
| OldItemset.Children | src/itemset.rs:108-113 | the symbol loop pushes the transitions in ascending symbol order |
| OldItemset.StepDecreases | src/itemset.rs:106-122 | every pass lowers a well-founded measure, so the loop ends although it never checks for repeated sets |
| OldItemset.Generation | src/itemset.rs:104-122 | every set is looked at in turn: its transitions appended, and every set but the first closed by the rules `gets_rule` gives for its variables |
| OldItemset.AppendedAreTransitions | src/itemset.rs:109-111 | every appended set is the transition, over a symbol it moves on, of a set as it was before its closure |
| OldItemset.TransitionsAppended | src/itemset.rs:108-113 | every such transition was appended |
| OldItemset.AppendedShifted | src/itemset.rs:109-111 | an appended set is non-empty and all its items are past their first symbol |
| OldItemset.StartKept | src/itemset.rs:114 | the starting sets come first, and state 0 is never closed |
| OldItemset.ClosureReached | src/itemset.rs:114-119 | every other set ends with dot-0 items for exactly the rules whose clause's group is reached from a variable after one of its dots |
| OldItemset.ItemSets.constructor | src/itemset.rs:95-97 | one empty state and no rules |
| OldItemset.ItemSets.AddRule | src/itemset.rs:98-101 | the rule is appended and its dot-0 item added to state 0 under its number |
| OldItemset.ItemSets.GenerateNext | src/itemset.rs:103-123 | builds the rule graph with depth-first groups, then leaves the sets `Generation` describes, keeping the rules |
| OldParsingtable.LinkableWhenOk | src/itemset.rs:73 | in a sequence of well-formed sets, `is_previous` can compare any two without panicking |
| OldParsingtable.LinksUpTo | src/parsingtable.rs:96-97 | the answers of `is_previous` for the sets below `k`, in order |
| OldParsingtable.LastEdges | src/parsingtable.rs:96-99 | inserting in index order: a symbol has an edge exactly when some set answers it, and to the last such set |
| OldParsingtable.EdgesOf | src/parsingtable.rs:95-101 | a state's edges: a symbol exactly when some set is linked from it by that symbol, to the last such set |
| OldParsingtable.LinksOf | src/parsingtable.rs:96-100 | the inner loop leaves exactly those edges |
| OldParsingtable.LinkTo | src/parsingtable.rs:97-99 | one round of the inner loop extends the edges by one more set |
| OldParsingtable.ReduceEntry | src/parsingtable.rs:103-107 | none exactly when the set has no end item; else the clause and rule length of its first end item |
| OldParsingtable.AllEdges | src/parsingtable.rs:92-101 | one state per set, each with that set's edges and no reduce entry yet |
| OldParsingtable.AllReduces | src/parsingtable.rs:103-107 | every state gets its set's reduce entry, and no edge changes |
| OldParsingtable.FromItemset | src/parsingtable.rs:91-110 | one state per set, holding that set's edges and reduce entry |
| OldParsingtable.Next | src/parsingtable.rs:73-90 | a reduce entry gives `Accept` for the accepting clause and otherwise `Reduce`, whatever the input; without one, shift exactly along an edge on the input terminal, and reject with no input or no edge |
| OldParsingtable.ReduceFirst | src/parsingtable.rs:75-80 | a state with a reduce entry acts the same on every input and never shifts |
| OldParsingtable.TargetsAreStates | src/parsingtable.rs:95-99 | every edge leads to a state, and so does the fallback of `reduce_state` |
| OldParsingtable.NextReduces | src/parsingtable.rs:73-107 | in a built state, reduce or accept exactly when the set has an end item, and then by the first one's clause and length |
| OldParsingtable.NextShifts | src/parsingtable.rs:73-101 | in a built state, shift to `j` exactly when there is no end item and `j` is the last set linked on the input terminal |
| OldParsingtable.NextRejects | src/parsingtable.rs:73-107 | in a built state, reject exactly when there is no end item and either no input or no set linked on the input terminal |
| OldParsingTable.LastRule | src/parsing_table.rs:153-163 | every end rule overwrites the one before, so none exactly when the set has no end item, else the rule of a greatest-numbered end item |
| OldParsingTable.LastEndStep | src/parsing_table.rs:162 | overwriting with an item no earlier than all seen keeps the last rule |
| OldParsingTable.FromItemset | src/parsing_table.rs:142-166 | one state per set, the edges of its row, and the last end rule; the conflict reports change nothing |
| OldParsingTable.Next | src/parsing_table.rs:125-141 | shift along an edge on the input terminal; else reduce (or accept) by the state's rule whatever the input; reject exactly when there is neither |
| OldParsingTable.NextLastEnd | src/parsing_table.rs:125-166 | in a built state: shift exactly along the row's pairs; else reduce by a greatest-numbered end item, the same with no input as on any terminal without an edge; reject exactly when there is neither |
| OldParsing.StartOk | src/parsing.rs:4-7 | position 0, state 0, no output, state 0 stacked, and the loop invariant holds |
| OldParsing.Lookahead | src/parsing.rs:10 | the char at the position as a terminal, and none exactly past the end |
| OldParsing.Popped | src/parsing.rs:33-37 | popping `k` times: the last `k` elements gone, or all when there are fewer |
| OldParsing.PoppedOnce | src/parsing.rs:33-37 | one more `pop` removes one more element, or nothing from an empty `Vec` |
| OldParsing.Step | src/parsing.rs:10-41 | one iteration: returns `Accept` or `Reject` exactly when the table does; a shift consumes and outputs exactly one char; a reduce keeps the position and panics exactly when it pops more states than there are symbols; the invariant is kept |
| OldParsing.Run | src/parsing.rs:9-43 | iterating never moves the position back and keeps the invariant; an accepted, rejected or panicking run ends where the table says so |
| OldParsing.RunFuel | src/parsing.rs:9-43 | more iterations never change a run that already ended |
| OldParsing.RunReads | src/parsing.rs:24-25 | the position moves at most one char per iteration |
| OldParsing.Advance | src/parsing.rs:10-41 | the loop body, `pop` loop included, computes exactly one iteration |
| OldParsing.Solving | src/parsing.rs:3-44 | the loop ends as `Run` from the start configuration says |
| OldParsing.BuiltMachineOk | src/parsingtable.rs:91-110 | a table built from well-formed sets keeps the driver within its states |

## Left out

- Display and printing. The `Display`/`Debug` impls and display modules are not part of this model. The `println!` calls are left out too: the conflict reports, the per-step trace of `solving`, `First::print`/`Follow::print` and the debug prints in `RuleGraph::new`.
- `src/main.rs` is not part of this model. It is terminal I/O: reading lines, handling keys and drawing tables.
- Hash iteration order. Wherever the source iterates a `HashMap` or `HashSet`, the model picks the elements in an arbitrary order (`:|`), and its contracts hold whatever order is picked. Where a result depends on the order of a `BTreeSet`, as state numbers, the conflict policies and the first item `is_previous` meets do, the model iterates it in ascending order. Where it does not, as in the inner loop of `is_previous`, the model picks arbitrarily and proves the result the same whatever is picked.
- Panics become preconditions. Panics in construction are ruled out by `requires`:
  - the `indexing[&var]` lookups need every looked-up variable to be a clause. The new generations require a rule for every variable that follows the first symbol of an output, and for a variable that starts rule 0 (`RuleDepend.LookupsClosed`). The older generation requires the first part (`RuleDepend.ShiftedClosed`), and that the starting sets after state 0 name only variables with rules (`OldItemset.StartLookups`);
  - `machine.states[current_state]` in `from_itemset` needs no more rows than sets (`requires |rows| <= |sets|` of every `FromItemset`). A second `generate_next` without `clear` writes more rows than sets, so the source panics there;
  - `rules[item.rule_number]` in `reduce` needs every item's rule number below the number of rules (every `FromItemset`);
  - `data[0]` in the older `is_connect` needs a non-empty output (`OldRuleDepend.Scannable`);
  - the `unwrap` in `is_previous` needs well-formed sets;
  - `solving` needs its edge targets to be states (`OldParsing.MachineOk`).
- Panics in the older code that the model keeps as outcomes:
  - the driver's `stack.last().unwrap()` (src/parsing.rs:39) is the `Underflow` outcome;
  - the `unwrap` in the older `get` is `None` (see Findings).
- OldParsing.Solving: the loop of `solving` has no bound, because a table can reduce forever. The model runs it for at most `fuel` iterations and reports `OutOfFuel` when the bound is reached. `RunFuel` shows that a larger bound never changes a run that already ended.
- OldFirstFollow.FromRule: calls `toposort` and the corrected `get`, both of src/rule_depend.rs. src/firstfollow.rs imports the `RuleGraph` of src/ruledepend.rs, which has no `toposort`, so the older `from_rule` does not compile as written; its only definition is at src/rule_depend.rs:96. The older `get` would panic on every grammar anyway (see Findings).
- LrZero.ItemSets.GenerateNext: requires a rule for every variable after the first symbol of any output, and for one starting rule 0, even in rules no state reaches. The source panics only on variables a reached state looks up.
- LrZero.Generation: the same requirement as `LrZero.ItemSets.GenerateNext`.
- LrOne.ItemSets.GenerateNext: the same requirement as `LrZero.ItemSets.GenerateNext`.
- LrOne.Generation: the same requirement as `LrZero.ItemSets.GenerateNext`.
- OldItemset.ItemSets.GenerateNext: requires a rule for every variable after the first symbol of any output, and for every variable after a dot of the starting sets after state 0, even where no set reaches it. The source panics only on variables a closed set looks up.
- OldItemset.Generation: the same requirement as `OldItemset.ItemSets.GenerateNext`.
- Code that is line for line the same is modelled once:
  - src/mapset.rs is `MapSets.MapSet`, the same map as src/data_structure/map_set.rs;
  - the item types of src/itemset/lr_one.rs are `ItemLookahead`;
  - `get_non_kernel` is `ItemNoLookahead.AddNonKernel` applied to a copy;
  - every `reduce_state` is `Tables.ReduceState`;
  - the older symbol types, their order, `From<&char>` and the `Rule` builders of src/syntax.rs are those of `Syntax` and `Convert`;
  - `gets_var` and `gets_rule` of src/ruledepend.rs are `RuleDepend.GetsVar` and `RuleDepend.GetsRule`;
  - `track_adding` of src/firstfollow.rs is `FirstFollow.TrackAdding`.
- `Rule::end` and the `ParsingProcess`/`IStateMachine` interface are not part of this model. `LrZero.ItemSets` and `LrOne.ItemSets` take the end rule as a constructor parameter.
- src/parsing_table.rs reads `itemsets` and `ordering_map` fields that no `ItemSets` in the tree has. The model gives it the LR(0) item sets of `ItemNoLookahead`, with the rows of `LrZero`.
- In-place updates of a `Vec` of item sets or states, such as `self.itemset[i].add_rule(..)` or `machine.states[id].next.insert(..)`, are modelled on `seq` values that the loop reassigns. Aliasing between the sets does not arise in the source, so nothing is lost.
- OldItemset.ItemSets.GenerateNext: states what the sets are, not that they are finite in number. Termination is proved by a measure (`Pot`), but no bound on the number of sets is stated.
- Machine-width integers: `usize` counters and indices cannot overflow at these sizes, so they are unbounded `nat`.

## Findings

| source | as written | input that shows it | evidently intended | confidence | as-written member | corrected member |
|---|---|---|---|---|---|---|
| src/ruledepend.rs:141 | `get` unwraps the successor entry of every group it reaches, but `check_edges` only makes entries for groups with an outgoing edge | any grammar, e.g. the single rule `S -> a`: the one group has no successors, and some reachable group without successors always exists because group edges only go down | a reached group without an entry has no successors, as `gets_var` treats it and as src/rule_depend.rs:77 does with `unwrap_or` | not executed | OldRuleDepend.GetAlwaysPanics | RuleDepend.Get |
| src/ruledepend.rs:69-80 | `strongconnect` pops the stack down to the root whatever the lowlinks say, so each depth-first tree becomes one group | `A -> a`, `A -> B`, `B -> b`: `A` and `B` share a group, although `B` does not reach `A` | groups are strongly connected components, as in src/tarjan.rs, which pops only when a node's lowlink equals its index | not executed | OldRuleDepend.LoneEdgeNotStrong | Tarjan.Tarjan.Run |
| src/firstfollow.rs:40-43 | every variable of a group is given the FIRST set of its least variable, which is sound only when all of a group's variables reach each other | the same rules, with the depth-first groups of src/ruledepend.rs and the corrected `get` of src/rule_depend.rs: the FIRST set of `B` holds `a`, though no derivation of `B` starts with `a`. As written the older `get` at src/firstfollow.rs:37 panics first, so only this combination reaches it | each variable gets the terminals that begin its own derivations, as the tracked FIRST of src/first_follow.rs computes them | not executed | OldFirstFollow.LoneEdgeFirstTooLarge | OldFirstFollow.PoolIsTracked |
