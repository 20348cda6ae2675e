/** Tarjan's strongly connected components algorithm (src/tarjan.rs), as in R. Tarjan, "Depth-first
    search and linear graph algorithms", SIAM J. Comput. 1(2), 1972.  Nodes are the indices below
    `len`; `v` is a successor of `u` when `isConnect(edges, nodes, u, v)` holds. */
module Tarjan {
  import opened Wrappers
  import opened Graphs

  function Min(a: nat, b: nat): (m: nat)
    ensures m <= a && m <= b && (m == a || m == b)
  {
    if a <= b then a else b
  }

  ghost predicate Visited(indexs: seq<Option<nat>>, x: nat) {
    x < |indexs| && indexs[x].Some?
  }

  ghost function VisitedSet(indexs: seq<Option<nat>>): set<nat> {
    set x | 0 <= x < |indexs| && indexs[x].Some?
  }

  /** `index` counts the visited nodes, their DFS numbers are below it, and no two share one. */
  ghost predicate NumsOk(len: nat, index: nat, indexs: seq<Option<nat>>) {
    && |indexs| == len
    && index == |VisitedSet(indexs)|
    && (forall x :: 0 <= x < len && indexs[x].Some? ==> indexs[x].value < index)
    && (forall x, y :: 0 <= x < len && 0 <= y < len && x != y ==> Apart(indexs, x, y))
  }

  /** Visited nodes `x` and `y` carry different numbers. */
  ghost predicate Apart(indexs: seq<Option<nat>>, x: nat, y: nat) {
    x < |indexs| && y < |indexs| && indexs[x].Some? && indexs[y].Some? ==> indexs[x].value != indexs[y].value
  }

  /** `a` and `b` are visited, `a` before `b`. */
  ghost predicate Earlier(indexs: seq<Option<nat>>, a: nat, b: nat) {
    a < |indexs| && b < |indexs| && indexs[a].Some? && indexs[b].Some? && indexs[a].value < indexs[b].value
  }

  /** The stack holds visited nodes in increasing DFS number, and `onStacks` marks exactly them. */
  ghost predicate StackOk(len: nat, stack: seq<nat>, indexs: seq<Option<nat>>, onStacks: seq<bool>) {
    && |indexs| == len && |onStacks| == len
    && (forall i :: 0 <= i < |stack| ==> stack[i] < len && indexs[stack[i]].Some?)
    && (forall i, j {:trigger Earlier(indexs, stack[i], stack[j])} :: 0 <= i < j < |stack| ==> Earlier(indexs, stack[i], stack[j]))
    && (forall x :: 0 <= x < len ==> (onStacks[x] <==> x in stack))
  }

  /** The components emitted so far: non-empty, disjoint, covering exactly the visited nodes off the
      stack, each strongly connected, and each with its successors in itself or an earlier one. */
  ghost predicate EmittedOk(len: nat, conn: (nat, nat) -> bool, stack: seq<nat>, indexs: seq<Option<nat>>, emitted: seq<set<nat>>) {
    && |indexs| == len
    && (forall i :: 0 <= i < |emitted| ==> emitted[i] != {})
    && (forall i, x {:trigger x in emitted[i]} :: 0 <= i < |emitted| && x in emitted[i] ==> x < len && indexs[x].Some? && x !in stack)
    && (forall x {:trigger InSome(emitted, |emitted|, x)} :: 0 <= x < len && indexs[x].Some? && x !in stack ==> InSome(emitted, |emitted|, x))
    && (forall i, j, x :: 0 <= i < |emitted| && 0 <= j < |emitted| && x in emitted[i] && x in emitted[j] ==> i == j)
    && (forall i, x, y :: 0 <= i < |emitted| && x in emitted[i] && 0 <= y < len && conn(x, y) ==> InSome(emitted, i + 1, y))
    && (forall i, x, y :: 0 <= i < |emitted| && x in emitted[i] && y in emitted[i] ==> Reaches(len, conn, x, y))
  }

  /** Every visited node's lowlink is at most its number; a stacked node's lowlink is the number of a
      stacked node it reaches. */
  ghost predicate LowOk(len: nat, conn: (nat, nat) -> bool, stack: seq<nat>, indexs: seq<Option<nat>>, lowlinks: seq<nat>)
    requires forall i :: 0 <= i < |stack| ==> stack[i] < |indexs| && indexs[stack[i]].Some?
  {
    && |lowlinks| == |indexs|
    && (forall x :: 0 <= x < |indexs| && indexs[x].Some? ==> lowlinks[x] <= indexs[x].value)
    && (forall i :: 0 <= i < |stack| ==> LowWitness(len, conn, stack, indexs, lowlinks, i))
  }

  /** `x` lies in one of the first `upto` components. */
  ghost predicate InSome(emitted: seq<set<nat>>, upto: int, x: nat) {
    exists j :: 0 <= j < upto && j < |emitted| && x in emitted[j]
  }

  /** The lowlink of `stack[i]` is the number of a stacked node that `stack[i]` reaches. */
  ghost predicate LowWitness(len: nat, conn: (nat, nat) -> bool, stack: seq<nat>, indexs: seq<Option<nat>>, lowlinks: seq<nat>, i: nat)
    requires forall i :: 0 <= i < |stack| ==> stack[i] < |indexs| && indexs[stack[i]].Some?
    requires |lowlinks| == |indexs| && i < |stack|
  {
    exists j :: 0 <= j < |stack| && indexs[stack[j]].value == lowlinks[stack[i]] && Reaches(len, conn, stack[i], stack[j])
  }

  /** The nodes whose `strongconnect` call is still running (`grays`), oldest first: each is stacked,
      each reaches every node numbered after it, and every other stacked node has a lowlink below
      its number. */
  ghost predicate GraysOk(len: nat, conn: (nat, nat) -> bool, stack: seq<nat>, indexs: seq<Option<nat>>, lowlinks: seq<nat>, grays: seq<nat>)
    requires forall i :: 0 <= i < |stack| ==> stack[i] < |indexs| && indexs[stack[i]].Some?
    requires |lowlinks| == |indexs|
  {
    && (forall k :: 0 <= k < |grays| ==> grays[k] < |indexs| && indexs[grays[k]].Some?)
    && (forall k :: 0 <= k < |grays| ==> grays[k] in stack)
    && (forall k, l {:trigger Earlier(indexs, grays[k], grays[l])} :: 0 <= k < l < |grays| ==> Earlier(indexs, grays[k], grays[l]))
    && (forall k, x {:trigger Reaches(len, conn, grays[k], x)} ::
          0 <= k < |grays| && 0 <= x < |indexs| && indexs[x].Some? && indexs[grays[k]].value <= indexs[x].value
          ==> Reaches(len, conn, grays[k], x))
    && (forall i :: 0 <= i < |stack| && stack[i] !in grays ==> lowlinks[stack[i]] < indexs[stack[i]].value)
  }

  ghost predicate ValidAt(len: nat, conn: (nat, nat) -> bool, index: nat, stack: seq<nat>, indexs: seq<Option<nat>>,
                          lowlinks: seq<nat>, onStacks: seq<bool>, emitted: seq<set<nat>>, grays: seq<nat>)
  {
    && NumsOk(len, index, indexs)
    && StackOk(len, stack, indexs, onStacks)
    && EmittedOk(len, conn, stack, indexs, emitted)
    && LowOk(len, conn, stack, indexs, lowlinks)
    && GraysOk(len, conn, stack, indexs, lowlinks, grays)
  }

  /** Following lowlinks down the stack ends at a running node: every stacked node reaches a gray
      node numbered no later than itself. */
  lemma {:induction false} ReachesGray(len: nat, conn: (nat, nat) -> bool, stack: seq<nat>, indexs: seq<Option<nat>>,
                                       lowlinks: seq<nat>, onStacks: seq<bool>, grays: seq<nat>, i: nat)
    requires StackOk(len, stack, indexs, onStacks)
    requires LowOk(len, conn, stack, indexs, lowlinks) && GraysOk(len, conn, stack, indexs, lowlinks, grays)
    requires i < |stack|
    ensures exists k :: 0 <= k < |grays| && indexs[grays[k]].value <= indexs[stack[i]].value && Reaches(len, conn, stack[i], grays[k])
    decreases indexs[stack[i]].value
  {
    var x := stack[i];
    if x in grays {
      var k :| 0 <= k < |grays| && grays[k] == x;
      ReachesRefl(len, conn, x);
    } else {
      assert LowWitness(len, conn, stack, indexs, lowlinks, i);
      var j :| 0 <= j < |stack| && indexs[stack[j]].value == lowlinks[x] && Reaches(len, conn, x, stack[j]);
      ReachesGray(len, conn, stack, indexs, lowlinks, onStacks, grays, j);
      var k :| 0 <= k < |grays| && indexs[grays[k]].value <= indexs[stack[j]].value && Reaches(len, conn, stack[j], grays[k]);
      ReachesTrans(len, conn, x, stack[j], grays[k]);
    }
  }

  /** With no running node the stack is empty. */
  lemma StackEmptyWithoutGrays(len: nat, conn: (nat, nat) -> bool, stack: seq<nat>, indexs: seq<Option<nat>>,
                               lowlinks: seq<nat>, onStacks: seq<bool>)
    requires StackOk(len, stack, indexs, onStacks)
    requires LowOk(len, conn, stack, indexs, lowlinks) && GraysOk(len, conn, stack, indexs, lowlinks, [])
    ensures stack == []
  {
    if stack != [] {
      ReachesGray(len, conn, stack, indexs, lowlinks, onStacks, [], 0);
    }
  }

  /** Visiting a fresh node `u` (numbering it, pushing it, making it the newest gray node) keeps the
      invariant. */
  lemma PushOk(len: nat, conn: (nat, nat) -> bool, index: nat, stack: seq<nat>, indexs: seq<Option<nat>>,
               lowlinks: seq<nat>, onStacks: seq<bool>, emitted: seq<set<nat>>, grays: seq<nat>, u: nat)
    requires ValidAt(len, conn, index, stack, indexs, lowlinks, onStacks, emitted, grays)
    requires u < len && indexs[u].None?
    requires grays == [] ==> stack == []
    requires grays != [] ==> conn(grays[|grays| - 1], u)
    ensures ValidAt(len, conn, index + 1, stack + [u], indexs[u := Some(index)], lowlinks[u := index],
                    onStacks[u := true], emitted, grays + [u])
  {
    var stack', indexs', lowlinks', onStacks' := stack + [u], indexs[u := Some(index)], lowlinks[u := index], onStacks[u := true];
    PushNums(len, index, indexs, u);
    PushStack(len, index, stack, indexs, onStacks, u);
    PushEmitted(len, conn, stack, indexs, emitted, u, index);
    PushLow(len, conn, index, stack, indexs, lowlinks, onStacks, u);
    PushGrays(len, conn, index, stack, indexs, lowlinks, onStacks, grays, u);
  }

  lemma PushNums(len: nat, index: nat, indexs: seq<Option<nat>>, u: nat)
    requires NumsOk(len, index, indexs) && u < len && indexs[u].None?
    ensures NumsOk(len, index + 1, indexs[u := Some(index)])
  {
    assert VisitedSet(indexs[u := Some(index)]) == VisitedSet(indexs) + {u};
    var indexs' := indexs[u := Some(index)];
    forall x, y | 0 <= x < len && 0 <= y < len && x != y ensures Apart(indexs', x, y) {
      assert Apart(indexs, x, y);
    }
  }

  lemma PushStack(len: nat, index: nat, stack: seq<nat>, indexs: seq<Option<nat>>, onStacks: seq<bool>, u: nat)
    requires NumsOk(len, index, indexs) && StackOk(len, stack, indexs, onStacks) && u < len && indexs[u].None?
    ensures StackOk(len, stack + [u], indexs[u := Some(index)], onStacks[u := true])
  {
    var stack', indexs' := stack + [u], indexs[u := Some(index)];
    forall i | 0 <= i < |stack| ensures stack'[i] == stack[i] && stack[i] != u && indexs'[stack[i]] == indexs[stack[i]] {
    }
    forall i, j | 0 <= i < j < |stack'| ensures Earlier(indexs', stack'[i], stack'[j]) {
      if j < |stack| {
        assert Earlier(indexs, stack[i], stack[j]);
      }
    }
  }

  lemma PushEmitted(len: nat, conn: (nat, nat) -> bool, stack: seq<nat>, indexs: seq<Option<nat>>, emitted: seq<set<nat>>, u: nat, n: nat)
    requires EmittedOk(len, conn, stack, indexs, emitted) && u < len && indexs[u].None?
    ensures EmittedOk(len, conn, stack + [u], indexs[u := Some(n)], emitted)
  {
    var stack', indexs' := stack + [u], indexs[u := Some(n)];
    forall i, x | 0 <= i < |emitted| && x in emitted[i] ensures x < len && indexs'[x].Some? && x !in stack' {
      assert x < len && indexs[x].Some? && x !in stack;
      assert x != u;
      assert indexs'[x] == indexs[x];
    }
    forall x | 0 <= x < len && indexs'[x].Some? && x !in stack' ensures InSome(emitted, |emitted|, x) {
      assert x != u && indexs[x].Some? && x !in stack;
    }
    assert (forall i :: 0 <= i < |emitted| ==> emitted[i] != {});
    assert (forall i, j, x :: 0 <= i < |emitted| && 0 <= j < |emitted| && x in emitted[i] && x in emitted[j] ==> i == j);
    assert (forall i, x, y :: 0 <= i < |emitted| && x in emitted[i] && 0 <= y < len && conn(x, y) ==> InSome(emitted, i + 1, y));
    assert (forall i, x, y :: 0 <= i < |emitted| && x in emitted[i] && y in emitted[i] ==> Reaches(len, conn, x, y));
  }

  lemma PushLow(len: nat, conn: (nat, nat) -> bool, index: nat, stack: seq<nat>, indexs: seq<Option<nat>>,
                lowlinks: seq<nat>, onStacks: seq<bool>, u: nat)
    requires NumsOk(len, index, indexs) && StackOk(len, stack, indexs, onStacks) && LowOk(len, conn, stack, indexs, lowlinks)
    requires u < len && indexs[u].None?
    ensures StackOk(len, stack + [u], indexs[u := Some(index)], onStacks[u := true])
    ensures LowOk(len, conn, stack + [u], indexs[u := Some(index)], lowlinks[u := index])
  {
    var stack', indexs', lowlinks', onStacks' := stack + [u], indexs[u := Some(index)], lowlinks[u := index], onStacks[u := true];
    forall i | 0 <= i < |stack| ensures stack'[i] == stack[i] && stack[i] != u && indexs'[stack[i]] == indexs[stack[i]] {
    }
    PushStack(len, index, stack, indexs, onStacks, u);
    forall i | 0 <= i < |stack'| ensures LowWitness(len, conn, stack', indexs', lowlinks', i) {
      if i == |stack| {
        ReachesRefl(len, conn, u);
        assert indexs'[stack'[i]].value == lowlinks'[stack'[i]];
      } else {
        assert LowWitness(len, conn, stack, indexs, lowlinks, i);
        var j :| 0 <= j < |stack| && indexs[stack[j]].value == lowlinks[stack[i]] && Reaches(len, conn, stack[i], stack[j]);
        assert stack'[j] == stack[j];
      }
    }
  }

  lemma PushGrays(len: nat, conn: (nat, nat) -> bool, index: nat, stack: seq<nat>, indexs: seq<Option<nat>>,
                  lowlinks: seq<nat>, onStacks: seq<bool>, grays: seq<nat>, u: nat)
    requires NumsOk(len, index, indexs) && StackOk(len, stack, indexs, onStacks)
    requires |lowlinks| == len && GraysOk(len, conn, stack, indexs, lowlinks, grays)
    requires u < len && indexs[u].None?
    requires grays != [] ==> conn(grays[|grays| - 1], u)
    ensures StackOk(len, stack + [u], indexs[u := Some(index)], onStacks[u := true])
    ensures GraysOk(len, conn, stack + [u], indexs[u := Some(index)], lowlinks[u := index], grays + [u])
  {
    var stack', indexs', lowlinks', onStacks' := stack + [u], indexs[u := Some(index)], lowlinks[u := index], onStacks[u := true];
    PushStack(len, index, stack, indexs, onStacks, u);
    var grays' := grays + [u];
    forall k | 0 <= k < |grays| ensures grays'[k] == grays[k] && grays[k] != u && indexs'[grays[k]] == indexs[grays[k]] {
    }
    forall k, l | 0 <= k < l < |grays'| ensures Earlier(indexs', grays'[k], grays'[l]) {
      if l < |grays| {
        assert Earlier(indexs, grays[k], grays[l]);
      }
    }
    PushGraysReach(len, conn, index, stack, indexs, lowlinks, grays, u);
    forall i | 0 <= i < |stack'| && stack'[i] !in grays' ensures lowlinks'[stack'[i]] < indexs'[stack'[i]].value {
      assert i < |stack| && stack'[i] == stack[i] && stack[i] !in grays;
    }
  }

  lemma PushGraysReach(len: nat, conn: (nat, nat) -> bool, index: nat, stack: seq<nat>, indexs: seq<Option<nat>>,
                       lowlinks: seq<nat>, grays: seq<nat>, u: nat)
    requires NumsOk(len, index, indexs)
    requires forall i :: 0 <= i < |stack| ==> stack[i] < |indexs| && indexs[stack[i]].Some?
    requires |lowlinks| == len && GraysOk(len, conn, stack, indexs, lowlinks, grays)
    requires u < len && indexs[u].None?
    requires grays != [] ==> conn(grays[|grays| - 1], u)
    ensures forall k, x :: 0 <= k < |grays + [u]| && 0 <= x < len && indexs[u := Some(index)][x].Some? &&
                          indexs[u := Some(index)][(grays + [u])[k]].value <= indexs[u := Some(index)][x].value
              ==> Reaches(len, conn, (grays + [u])[k], x)
  {
    var indexs', grays' := indexs[u := Some(index)], grays + [u];
    forall k, x | 0 <= k < |grays'| && 0 <= x < len && indexs'[x].Some? && indexs'[grays'[k]].value <= indexs'[x].value
      ensures Reaches(len, conn, grays'[k], x)
    {
      if k == |grays| {
        ReachesRefl(len, conn, u);
      } else if x == u {
        var g, p := grays[k], grays[|grays| - 1];
        assert g != u && p != u;
        if k < |grays| - 1 {
          assert Earlier(indexs, g, p);
        }
        assert Reaches(len, conn, g, p);
        ReachesStep(len, conn, g, p, u);
      } else {
        assert grays'[k] == grays[k] && grays[k] != u;
        assert indexs[x] == indexs'[x];
      }
    }
  }

  /** Lowering the lowlink of the running node `u` to `m` keeps the invariant when `m` is its old
      lowlink or the number of a stacked node that `u` reaches. */
  lemma LowerOk(len: nat, conn: (nat, nat) -> bool, index: nat, stack: seq<nat>, indexs: seq<Option<nat>>,
                lowlinks: seq<nat>, onStacks: seq<bool>, emitted: seq<set<nat>>, grays: seq<nat>, u: nat, m: nat)
    requires ValidAt(len, conn, index, stack, indexs, lowlinks, onStacks, emitted, grays)
    requires u < len && u in grays && m <= lowlinks[u]
    requires m == lowlinks[u] || exists j :: 0 <= j < |stack| && indexs[stack[j]].value == m && Reaches(len, conn, u, stack[j])
    ensures ValidAt(len, conn, index, stack, indexs, lowlinks[u := m], onStacks, emitted, grays)
  {
    var lowlinks' := lowlinks[u := m];
    forall i | 0 <= i < |stack| ensures LowWitness(len, conn, stack, indexs, lowlinks', i) {
      assert LowWitness(len, conn, stack, indexs, lowlinks, i);
      if stack[i] == u && m < lowlinks[u] {
        var j :| 0 <= j < |stack| && indexs[stack[j]].value == m && Reaches(len, conn, u, stack[j]);
      }
    }
    assert LowOk(len, conn, stack, indexs, lowlinks');
    assert GraysOk(len, conn, stack, indexs, lowlinks', grays);
  }

  /** After the call on a successor `v` returns: `min(lowlinks[u], lowlinks[v])`. */
  lemma LowerToChildOk(len: nat, conn: (nat, nat) -> bool, index: nat, stack: seq<nat>, indexs: seq<Option<nat>>,
                       lowlinks: seq<nat>, onStacks: seq<bool>, emitted: seq<set<nat>>, grays: seq<nat>, u: nat, v: nat)
    requires ValidAt(len, conn, index, stack, indexs, lowlinks, onStacks, emitted, grays)
    requires u < len && u in grays && v < len && conn(u, v) && indexs[v].Some?
    requires indexs[u].value < indexs[v].value && lowlinks[u] <= indexs[u].value
    requires v !in stack ==> lowlinks[v] == indexs[v].value
    ensures ValidAt(len, conn, index, stack, indexs, lowlinks[u := Min(lowlinks[u], lowlinks[v])], onStacks, emitted, grays)
  {
    var m := Min(lowlinks[u], lowlinks[v]);
    if m < lowlinks[u] {
      var iv :| 0 <= iv < |stack| && stack[iv] == v;
      assert LowWitness(len, conn, stack, indexs, lowlinks, iv);
      var j :| 0 <= j < |stack| && indexs[stack[j]].value == lowlinks[v] && Reaches(len, conn, v, stack[j]);
      ReachesEdge(len, conn, u, v);
      ReachesTrans(len, conn, u, v, stack[j]);
    }
    LowerOk(len, conn, index, stack, indexs, lowlinks, onStacks, emitted, grays, u, m);
  }

  /** A successor `v` that is already stacked: `min(lowlinks[u], indexs[v])`. */
  lemma LowerToStackedOk(len: nat, conn: (nat, nat) -> bool, index: nat, stack: seq<nat>, indexs: seq<Option<nat>>,
                         lowlinks: seq<nat>, onStacks: seq<bool>, emitted: seq<set<nat>>, grays: seq<nat>, u: nat, v: nat)
    requires ValidAt(len, conn, index, stack, indexs, lowlinks, onStacks, emitted, grays)
    requires u < len && u in grays && v < len && conn(u, v) && v in stack
    ensures indexs[v].Some?
    ensures ValidAt(len, conn, index, stack, indexs, lowlinks[u := Min(lowlinks[u], indexs[v].value)], onStacks, emitted, grays)
  {
    var iv :| 0 <= iv < |stack| && stack[iv] == v;
    var m := Min(lowlinks[u], indexs[v].value);
    if m < lowlinks[u] {
      ReachesEdge(len, conn, u, v);
    }
    LowerOk(len, conn, index, stack, indexs, lowlinks, onStacks, emitted, grays, u, m);
  }

  /** A finished node that is not a root stays stacked and stops being gray. */
  lemma FinishOk(len: nat, conn: (nat, nat) -> bool, index: nat, stack: seq<nat>, indexs: seq<Option<nat>>,
                 lowlinks: seq<nat>, onStacks: seq<bool>, emitted: seq<set<nat>>, grays: seq<nat>, u: nat)
    requires ValidAt(len, conn, index, stack, indexs, lowlinks, onStacks, emitted, grays + [u])
    requires u < len && indexs[u].Some? && lowlinks[u] < indexs[u].value
    ensures ValidAt(len, conn, index, stack, indexs, lowlinks, onStacks, emitted, grays)
  {
    var grays' := grays + [u];
    forall k | 0 <= k < |grays| ensures grays[k] == grays'[k] {
    }
    forall i | 0 <= i < |stack| && stack[i] !in grays ensures lowlinks[stack[i]] < indexs[stack[i]].value {
      if stack[i] != u { assert stack[i] !in grays'; }
    }
  }

  /** The nodes stacked from position `p` up. */
  ghost function Above(stack: seq<nat>, p: nat): set<nat> {
    set i | p <= i < |stack| :: stack[i]
  }

  /** The facts the root `u` at stack position `p` has gathered when its loop ends: it is still its
      own lowlink, and every successor of a node stacked above it is either in an emitted component
      or numbered no earlier than `u`. */
  ghost predicate RootReady(len: nat, conn: (nat, nat) -> bool, stack: seq<nat>, indexs: seq<Option<nat>>,
                            lowlinks: seq<nat>, u: nat, p: nat)
  {
    && p < |stack| && stack[p] == u && u < |indexs| && u < |lowlinks| && indexs[u].Some?
    && lowlinks[u] == indexs[u].value
    && Settled(len, conn, stack, indexs, lowlinks[u], p, |stack|)
  }

  /** Popping the root's component off the stack and emitting it keeps the invariant. */
  lemma EmitOk(len: nat, conn: (nat, nat) -> bool, index: nat, stack: seq<nat>, indexs: seq<Option<nat>>,
               lowlinks: seq<nat>, onStacks: seq<bool>, emitted: seq<set<nat>>, grays: seq<nat>, u: nat, p: nat,
               onStacks': seq<bool>)
    requires ValidAt(len, conn, index, stack, indexs, lowlinks, onStacks, emitted, grays + [u])
    requires RootReady(len, conn, stack, indexs, lowlinks, u, p)
    requires |onStacks'| == len && forall x :: 0 <= x < len ==> (onStacks'[x] <==> x in stack[..p])
    ensures ValidAt(len, conn, index, stack[..p], indexs, lowlinks, onStacks', emitted + [Above(stack, p)], grays)
  {
    EmitStackOk(len, stack, indexs, onStacks, p, onStacks');
    EmitEmittedOk(len, conn, index, stack, indexs, lowlinks, onStacks, emitted, grays, u, p);
    EmitLowOk(len, conn, stack, indexs, lowlinks, onStacks, u, p);
    EmitGraysOk(len, conn, index, stack, indexs, lowlinks, onStacks, emitted, grays, u, p);
  }

  lemma EmitStackOk(len: nat, stack: seq<nat>, indexs: seq<Option<nat>>, onStacks: seq<bool>, p: nat, onStacks': seq<bool>)
    requires StackOk(len, stack, indexs, onStacks) && p <= |stack|
    requires |onStacks'| == len && forall x :: 0 <= x < len ==> (onStacks'[x] <==> x in stack[..p])
    ensures StackOk(len, stack[..p], indexs, onStacks')
  {
  }

  /** Nodes stacked at or above `p` and nodes stacked below it differ. */
  lemma StackSplit(len: nat, stack: seq<nat>, indexs: seq<Option<nat>>, onStacks: seq<bool>, p: nat, x: nat)
    requires StackOk(len, stack, indexs, onStacks) && p <= |stack|
    requires x in Above(stack, p)
    ensures x !in stack[..p]
  {
    var i :| p <= i < |stack| && stack[i] == x;
    forall j | 0 <= j < p ensures stack[..p][j] != x {
      assert Earlier(indexs, stack[j], stack[i]);
    }
  }

  /** A stacked node numbered no earlier than `stack[p]` is stacked at or above `p`. */
  lemma StackAboveByNumber(len: nat, stack: seq<nat>, indexs: seq<Option<nat>>, onStacks: seq<bool>, p: nat, y: nat)
    requires StackOk(len, stack, indexs, onStacks) && p < |stack|
    requires y in stack && y < |indexs| && indexs[y].Some? && indexs[stack[p]].value <= indexs[y].value
    ensures y in Above(stack, p)
  {
    var i :| 0 <= i < |stack| && stack[i] == y;
    forall j | 0 <= j < p ensures indexs[stack[j]].value < indexs[stack[p]].value {
      assert Earlier(indexs, stack[j], stack[p]);
    }
  }

  lemma EmitEmittedOk(len: nat, conn: (nat, nat) -> bool, index: nat, stack: seq<nat>, indexs: seq<Option<nat>>,
                      lowlinks: seq<nat>, onStacks: seq<bool>, emitted: seq<set<nat>>, grays: seq<nat>, u: nat, p: nat)
    requires ValidAt(len, conn, index, stack, indexs, lowlinks, onStacks, emitted, grays + [u])
    requires RootReady(len, conn, stack, indexs, lowlinks, u, p)
    ensures EmittedOk(len, conn, stack[..p], indexs, emitted + [Above(stack, p)])
  {
    var e := emitted + [Above(stack, p)];
    EmitMembers(len, conn, stack, indexs, onStacks, emitted, p);
    EmitClosed(len, conn, stack, indexs, lowlinks, onStacks, emitted, u, p);
    forall i, x, y | 0 <= i < |e| && x in e[i] && y in e[i] ensures Reaches(len, conn, x, y) {
      if i < |emitted| {
        assert x in emitted[i] && y in emitted[i];
      } else {
        RootReachesAbove(len, conn, index, stack, indexs, lowlinks, onStacks, emitted, grays, u, p, y);
        AboveReachesRoot(len, conn, index, stack, indexs, lowlinks, onStacks, emitted, grays, u, p, x);
        ReachesTrans(len, conn, x, u, y);
      }
    }
  }

  lemma EmitMembers(len: nat, conn: (nat, nat) -> bool, stack: seq<nat>, indexs: seq<Option<nat>>,
                    onStacks: seq<bool>, emitted: seq<set<nat>>, p: nat)
    requires StackOk(len, stack, indexs, onStacks) && EmittedOk(len, conn, stack, indexs, emitted) && p < |stack|
    ensures var e := emitted + [Above(stack, p)];
      && (forall i :: 0 <= i < |e| ==> e[i] != {})
      && (forall i, x {:trigger x in e[i]} :: 0 <= i < |e| && x in e[i] ==> x < len && indexs[x].Some?)
      && (forall i, x :: 0 <= i < |e| && x in e[i] ==> x !in stack[..p])
      && (forall x: nat :: 0 <= x < len && indexs[x].Some? && x !in stack[..p] ==> InSome(e, |e|, x))
      && (forall i, j, x :: 0 <= i < |e| && 0 <= j < |e| && x in e[i] && x in e[j] ==> i == j)
  {
    var c := Above(stack, p);
    var e := emitted + [c];
    var s := stack[..p];
    assert forall x: nat :: x in s ==> x in stack;
    assert stack[p] in c;
    forall x: nat | x in c ensures x < len && indexs[x].Some? && x !in s && x in stack {
      StackSplit(len, stack, indexs, onStacks, p, x);
    }
    forall i, x {:trigger x in e[i]} | 0 <= i < |e| && x in e[i] ensures x < len && indexs[x].Some? && x !in s {
      if i < |emitted| {
        assert e[i] == emitted[i];
        assert x !in stack;
      } else {
        assert e[i] == c;
      }
    }
    forall x: nat | 0 <= x < len && indexs[x].Some? && x !in s ensures InSome(e, |e|, x) {
      if x in stack {
        var i :| 0 <= i < |stack| && stack[i] == x;
        forall j | 0 <= j < p ensures stack[j] != x { assert s[j] == stack[j]; }
        assert x in e[|emitted|];
      } else {
        assert InSome(emitted, |emitted|, x);
        var j :| 0 <= j < |emitted| && x in emitted[j];
        assert x in e[j];
      }
    }
    forall i, j, x | 0 <= i < |e| && 0 <= j < |e| && x in e[i] && x in e[j] ensures i == j {
    }
  }

  lemma EmitClosed(len: nat, conn: (nat, nat) -> bool, stack: seq<nat>, indexs: seq<Option<nat>>,
                   lowlinks: seq<nat>, onStacks: seq<bool>, emitted: seq<set<nat>>, u: nat, p: nat)
    requires StackOk(len, stack, indexs, onStacks) && EmittedOk(len, conn, stack, indexs, emitted)
    requires RootReady(len, conn, stack, indexs, lowlinks, u, p)
    ensures var e := emitted + [Above(stack, p)];
      forall i, x, y :: 0 <= i < |e| && x in e[i] && 0 <= y < len && conn(x, y) ==> InSome(e, i + 1, y)
  {
    var e := emitted + [Above(stack, p)];
    forall i, x, y | 0 <= i < |e| && x in e[i] && 0 <= y < len && conn(x, y) ensures InSome(e, i + 1, y) {
      if i < |emitted| {
        assert InSome(emitted, i + 1, y);
        var j :| 0 <= j < i + 1 && j < |emitted| && y in emitted[j];
        assert y in e[j];
      } else {
        var ix :| p <= ix < |stack| && stack[ix] == x;
        if y in stack {
          StackAboveByNumber(len, stack, indexs, onStacks, p, y);
          assert y in e[i];
        } else {
          assert InSome(emitted, |emitted|, y);
          var j :| 0 <= j < |emitted| && y in emitted[j];
          assert y in e[j];
        }
      }
    }
  }

  lemma RootReachesAbove(len: nat, conn: (nat, nat) -> bool, index: nat, stack: seq<nat>, indexs: seq<Option<nat>>,
                         lowlinks: seq<nat>, onStacks: seq<bool>, emitted: seq<set<nat>>, grays: seq<nat>, u: nat, p: nat, y: nat)
    requires ValidAt(len, conn, index, stack, indexs, lowlinks, onStacks, emitted, grays + [u])
    requires p < |stack| && stack[p] == u && y in Above(stack, p)
    ensures Reaches(len, conn, u, y)
  {
    var i :| p <= i < |stack| && stack[i] == y;
    if i > p { assert Earlier(indexs, stack[p], stack[i]); }
    var k := |grays|;
    assert (grays + [u])[k] == u;
  }

  lemma AboveReachesRoot(len: nat, conn: (nat, nat) -> bool, index: nat, stack: seq<nat>, indexs: seq<Option<nat>>,
                         lowlinks: seq<nat>, onStacks: seq<bool>, emitted: seq<set<nat>>, grays: seq<nat>, u: nat, p: nat, x: nat)
    requires ValidAt(len, conn, index, stack, indexs, lowlinks, onStacks, emitted, grays + [u])
    requires p < |stack| && stack[p] == u && x in Above(stack, p)
    ensures Reaches(len, conn, x, u)
  {
    var grays' := grays + [u];
    var i :| p <= i < |stack| && stack[i] == x;
    ReachesGray(len, conn, stack, indexs, lowlinks, onStacks, grays', i);
    var k :| 0 <= k < |grays'| && indexs[grays'[k]].value <= indexs[stack[i]].value && Reaches(len, conn, stack[i], grays'[k]);
    if k < |grays| {
      assert Earlier(indexs, grays'[k], grays'[|grays|]);
    }
    assert Reaches(len, conn, grays'[k], u);
    ReachesTrans(len, conn, x, grays'[k], u);
  }

  lemma EmitLowOk(len: nat, conn: (nat, nat) -> bool, stack: seq<nat>, indexs: seq<Option<nat>>,
                  lowlinks: seq<nat>, onStacks: seq<bool>, u: nat, p: nat)
    requires StackOk(len, stack, indexs, onStacks) && LowOk(len, conn, stack, indexs, lowlinks)
    requires p < |stack| && stack[p] == u
    ensures LowOk(len, conn, stack[..p], indexs, lowlinks)
  {
    var s := stack[..p];
    forall i | 0 <= i < |s| ensures LowWitness(len, conn, s, indexs, lowlinks, i) {
      assert LowWitness(len, conn, stack, indexs, lowlinks, i);
      var j :| 0 <= j < |stack| && indexs[stack[j]].value == lowlinks[stack[i]] && Reaches(len, conn, stack[i], stack[j]);
      assert Earlier(indexs, stack[i], stack[p]);
      forall j' | p < j' < |stack| ensures indexs[stack[p]].value < indexs[stack[j']].value {
        assert Earlier(indexs, stack[p], stack[j']);
      }
      assert s[j] == stack[j];
    }
  }

  lemma EmitGraysOk(len: nat, conn: (nat, nat) -> bool, index: nat, stack: seq<nat>, indexs: seq<Option<nat>>,
                    lowlinks: seq<nat>, onStacks: seq<bool>, emitted: seq<set<nat>>, grays: seq<nat>, u: nat, p: nat)
    requires ValidAt(len, conn, index, stack, indexs, lowlinks, onStacks, emitted, grays + [u])
    requires p < |stack| && stack[p] == u
    ensures GraysOk(len, conn, stack[..p], indexs, lowlinks, grays)
  {
    var grays', s := grays + [u], stack[..p];
    forall k | 0 <= k < |grays| ensures grays[k] == grays'[k] && grays[k] in s {
      assert grays'[k] in stack;
      assert Earlier(indexs, grays'[k], grays'[|grays|]);
      forall j | p < j < |stack| ensures indexs[stack[p]].value < indexs[stack[j]].value {
        assert Earlier(indexs, stack[p], stack[j]);
      }
    }
    forall i | 0 <= i < |s| && s[i] !in grays ensures lowlinks[s[i]] < indexs[s[i]].value {
      assert Earlier(indexs, stack[i], stack[p]);
      assert s[i] != u && s[i] !in grays';
    }
  }

  lemma AppendAssoc<T>(a: seq<T>, b: seq<T>, c: seq<T>)
    ensures a + b + c == a + (b + c)
  {
  }

  /** At most `n` distinct numbers lie below `n`. */
  lemma {:induction false} BoundedCard(a: set<nat>, n: nat)
    requires forall x :: x in a ==> x < n
    ensures |a| <= n
  {
    if n > 0 {
      BoundedCard(a - {n - 1}, n - 1);
    }
  }

  /** While some node is unvisited the counter stays below the number of nodes. */
  lemma IndexBelowLen(len: nat, index: nat, indexs: seq<Option<nat>>, u: nat)
    requires NumsOk(len, index, indexs) && u < len && indexs[u].None?
    ensures index < len
  {
    var b := VisitedSet(indexs) + {u};
    BoundedCard(b, len);
  }

  lemma IndexAtMostLen(len: nat, index: nat, indexs: seq<Option<nat>>)
    requires NumsOk(len, index, indexs)
    ensures index <= len
  {
    BoundedCard(VisitedSet(indexs), len);
  }

  /** Successors of the nodes stacked at positions `from` up to `to` are visited, and those still
      stacked are numbered no lower than `low`. */
  ghost predicate Settled(len: nat, conn: (nat, nat) -> bool, stack: seq<nat>, indexs: seq<Option<nat>>,
                          low: nat, from: nat, to: nat)
  {
    && |indexs| == len
    && forall i, y {:trigger conn(stack[i], y)} :: from <= i < to && i < |stack| && 0 <= y < len && conn(stack[i], y) ==>
         indexs[y].Some? && (y !in stack || low <= indexs[y].value)
  }

  /** The same for the successors of `u` below `upto`. */
  ghost predicate OwnSettled(len: nat, conn: (nat, nat) -> bool, stack: seq<nat>, indexs: seq<Option<nat>>,
                             low: nat, u: nat, upto: nat)
  {
    && |indexs| == len
    && forall y {:trigger conn(u, y)} :: 0 <= y < upto && y < len && conn(u, y) ==> indexs[y].Some? && (y !in stack || low <= indexs[y].value)
  }

  /** A later state of a run: the old stack is a prefix of the new one, whatever was pushed was
      unvisited before, and numbers and lowlinks of nodes visited before did not change. */
  ghost predicate Extends(len: nat, stack0: seq<nat>, indexs0: seq<Option<nat>>, lowlinks0: seq<nat>,
                          stack: seq<nat>, indexs: seq<Option<nat>>, lowlinks: seq<nat>)
  {
    && |indexs0| == len && |indexs| == len && |lowlinks0| == len && |lowlinks| == len
    && |stack0| <= |stack| && stack[..|stack0|] == stack0
    && (forall i :: |stack0| <= i < |stack| ==> stack[i] < len && indexs0[stack[i]].None?)
    && (forall x :: 0 <= x < len && indexs0[x].Some? ==> indexs[x] == indexs0[x] && lowlinks[x] == lowlinks0[x])
  }

  lemma ExtendsTrans(len: nat, stack0: seq<nat>, indexs0: seq<Option<nat>>, lowlinks0: seq<nat>,
                     stack1: seq<nat>, indexs1: seq<Option<nat>>, lowlinks1: seq<nat>,
                     stack: seq<nat>, indexs: seq<Option<nat>>, lowlinks: seq<nat>)
    requires Extends(len, stack0, indexs0, lowlinks0, stack1, indexs1, lowlinks1)
    requires Extends(len, stack1, indexs1, lowlinks1, stack, indexs, lowlinks)
    ensures Extends(len, stack0, indexs0, lowlinks0, stack, indexs, lowlinks)
  {
    forall i | |stack0| <= i < |stack| ensures stack[i] < len && indexs0[stack[i]].None? {
      if i < |stack1| {
        assert stack[i] == stack[..|stack1|][i] == stack1[i];
      } else {
        assert indexs1[stack[i]].None?;
      }
    }
    assert stack[..|stack0|] == stack[..|stack1|][..|stack0|];
  }

  /** A node stacked in the later state that was visited before was already stacked then. */
  lemma ExtendsStacked(len: nat, stack0: seq<nat>, indexs0: seq<Option<nat>>, lowlinks0: seq<nat>,
                       stack: seq<nat>, indexs: seq<Option<nat>>, lowlinks: seq<nat>, y: nat)
    requires Extends(len, stack0, indexs0, lowlinks0, stack, indexs, lowlinks)
    requires y < len && indexs0[y].Some? && y in stack
    ensures y in stack0
  {
    var i :| 0 <= i < |stack| && stack[i] == y;
    assert stack[..|stack0|][i] == y;
  }

  /** Facts about successors survive into a later state, with a lower bound no larger. */
  lemma SettledStable(len: nat, conn: (nat, nat) -> bool, stack0: seq<nat>, indexs0: seq<Option<nat>>, lowlinks0: seq<nat>,
                      stack: seq<nat>, indexs: seq<Option<nat>>, lowlinks: seq<nat>, low0: nat, low: nat, from: nat)
    requires Extends(len, stack0, indexs0, lowlinks0, stack, indexs, lowlinks)
    requires Settled(len, conn, stack0, indexs0, low0, from, |stack0|) && low <= low0
    ensures Settled(len, conn, stack, indexs, low, from, |stack0|)
  {
    forall i, y | from <= i < |stack0| && i < |stack| && 0 <= y < len && conn(stack[i], y)
      ensures indexs[y].Some? && (y !in stack || low <= indexs[y].value)
    {
      assert stack[i] == stack[..|stack0|][i] == stack0[i];
      if y in stack {
        ExtendsStacked(len, stack0, indexs0, lowlinks0, stack, indexs, lowlinks, y);
      }
    }
  }

  lemma OwnSettledStable(len: nat, conn: (nat, nat) -> bool, stack0: seq<nat>, indexs0: seq<Option<nat>>, lowlinks0: seq<nat>,
                         stack: seq<nat>, indexs: seq<Option<nat>>, lowlinks: seq<nat>, low0: nat, low: nat, u: nat, upto: nat)
    requires Extends(len, stack0, indexs0, lowlinks0, stack, indexs, lowlinks)
    requires OwnSettled(len, conn, stack0, indexs0, low0, u, upto) && low <= low0
    ensures OwnSettled(len, conn, stack, indexs, low, u, upto)
  {
    forall y | 0 <= y < upto && y < len && conn(u, y) ensures indexs[y].Some? && (y !in stack || low <= indexs[y].value) {
      if y in stack {
        ExtendsStacked(len, stack0, indexs0, lowlinks0, stack, indexs, lowlinks, y);
      }
    }
  }

  /** Lowering the lowlink of a node that was unvisited in the earlier state keeps the extension. */
  lemma ExtendsLower(len: nat, stack0: seq<nat>, indexs0: seq<Option<nat>>, lowlinks0: seq<nat>,
                     stack: seq<nat>, indexs: seq<Option<nat>>, lowlinks: seq<nat>, u: nat, m: nat)
    requires Extends(len, stack0, indexs0, lowlinks0, stack, indexs, lowlinks) && u < len && indexs0[u].None?
    ensures Extends(len, stack0, indexs0, lowlinks0, stack, indexs, lowlinks[u := m])
  {
  }

  /** Visiting a fresh node extends the state. */
  lemma ExtendsPush(len: nat, stack: seq<nat>, indexs: seq<Option<nat>>, lowlinks: seq<nat>, u: nat, n: nat)
    requires |indexs| == len && |lowlinks| == len && u < len && indexs[u].None?
    ensures Extends(len, stack, indexs, lowlinks, stack + [u], indexs[u := Some(n)], lowlinks[u := n])
  {
    assert (stack + [u])[..|stack|] == stack;
  }

  /** Popping back to the old stack height keeps the extension. */
  lemma ExtendsTruncate(len: nat, stack0: seq<nat>, indexs0: seq<Option<nat>>, lowlinks0: seq<nat>,
                        stack: seq<nat>, indexs: seq<Option<nat>>, lowlinks: seq<nat>)
    requires Extends(len, stack0, indexs0, lowlinks0, stack, indexs, lowlinks)
    ensures Extends(len, stack0, indexs0, lowlinks0, stack[..|stack0|], indexs, lowlinks)
  {
  }

  lemma ExtendsRefl(len: nat, stack: seq<nat>, indexs: seq<Option<nat>>, lowlinks: seq<nat>)
    requires |indexs| == len && |lowlinks| == len
    ensures Extends(len, stack, indexs, lowlinks, stack, indexs, lowlinks)
  {
    assert stack[..|stack|] == stack;
  }

  /** Changing the lowlink of `u` on both sides keeps the extension. */
  lemma ExtendsPatch(len: nat, stack0: seq<nat>, indexs0: seq<Option<nat>>, lowlinks0: seq<nat>,
                     stack: seq<nat>, indexs: seq<Option<nat>>, lowlinks: seq<nat>, u: nat, m: nat)
    requires Extends(len, stack0, indexs0, lowlinks0, stack, indexs, lowlinks) && u < len
    ensures Extends(len, stack0, indexs0, lowlinks0[u := m], stack, indexs, lowlinks[u := m])
  {
  }

  /** Two adjacent ranges of settled positions make one, under the smaller bound. */
  lemma SettledJoin(len: nat, conn: (nat, nat) -> bool, stack: seq<nat>, indexs: seq<Option<nat>>,
                    lowA: nat, lowB: nat, low: nat, from: nat, mid: nat, to: nat)
    requires Settled(len, conn, stack, indexs, lowA, from, mid) && Settled(len, conn, stack, indexs, lowB, mid, to)
    requires low <= lowA && low <= lowB
    ensures Settled(len, conn, stack, indexs, low, from, to)
  {
    forall i, y | from <= i < to && i < |stack| && 0 <= y < len && conn(stack[i], y)
      ensures indexs[y].Some? && (y !in stack || low <= indexs[y].value)
    {
      if i < mid {
        assert indexs[y].Some? && (y !in stack || lowA <= indexs[y].value);
      } else {
        assert indexs[y].Some? && (y !in stack || lowB <= indexs[y].value);
      }
    }
  }

  /** Settling one more successor `v` of `u`. */
  lemma OwnSettledNext(len: nat, conn: (nat, nat) -> bool, stack: seq<nat>, indexs: seq<Option<nat>>,
                       low: nat, u: nat, v: nat)
    requires OwnSettled(len, conn, stack, indexs, low, u, v) && v < len
    requires conn(u, v) ==> indexs[v].Some? && (v !in stack || low <= indexs[v].value)
    ensures OwnSettled(len, conn, stack, indexs, low, u, v + 1)
  {
  }

  /** Lowering the bound keeps successors settled. */
  lemma OwnSettledLower(len: nat, conn: (nat, nat) -> bool, stack: seq<nat>, indexs: seq<Option<nat>>,
                        low0: nat, low: nat, u: nat, upto: nat)
    requires OwnSettled(len, conn, stack, indexs, low0, u, upto) && low <= low0
    ensures OwnSettled(len, conn, stack, indexs, low, u, upto)
  {
  }

  /** Once all successors of `u` at stack position `p` are settled, the positions from `p` up are. */
  lemma RootSettled(len: nat, conn: (nat, nat) -> bool, stack: seq<nat>, indexs: seq<Option<nat>>,
                    low: nat, u: nat, p: nat)
    requires p < |stack| && stack[p] == u
    requires Settled(len, conn, stack, indexs, low, p + 1, |stack|) && OwnSettled(len, conn, stack, indexs, low, u, len)
    ensures Settled(len, conn, stack, indexs, low, p, |stack|)
  {
    forall i, y | p <= i < |stack| && 0 <= y < len && conn(stack[i], y)
      ensures indexs[y].Some? && (y !in stack || low <= indexs[y].value)
    {
      if i == p {
        assert conn(u, y);
      }
    }
  }

  /** Popping the top of the stack while looking for the root at position `p`. */
  lemma PopStep(len: nat, stack: seq<nat>, indexs: seq<Option<nat>>, onStacks: seq<bool>, n: nat, p: nat)
    requires StackOk(len, stack, indexs, onStacks) && p < n <= |stack|
    ensures forall x :: x in stack[..n - 1] <==> x in stack[..n] && x != stack[n - 1]
    ensures stack[n - 1] == stack[p] ==> n - 1 == p
    ensures Above(stack, n - 1) == Above(stack, n) + {stack[n - 1]}
  {
    forall x ensures x in stack[..n - 1] <==> x in stack[..n] && x != stack[n - 1] {
      if x in stack[..n - 1] {
        var i :| 0 <= i < n - 1 && stack[..n - 1][i] == x;
        assert stack[i] == x;
        assert Earlier(indexs, stack[i], stack[n - 1]);
      }
      if x in stack[..n] && x != stack[n - 1] {
        var i :| 0 <= i < n && stack[..n][i] == x;
        assert stack[..n - 1][i] == x;
      }
    }
    if n - 1 != p {
      assert Earlier(indexs, stack[p], stack[n - 1]);
    }
  }

  /** `comps` are non-empty, disjoint sets of the nodes below `len` that together cover them all. */
  ghost predicate Partition(len: nat, comps: seq<set<nat>>) {
    && (forall i :: 0 <= i < |comps| ==> comps[i] != {})
    && (forall i, x {:trigger x in comps[i]} :: 0 <= i < |comps| && x in comps[i] ==> x < len)
    && (forall x :: 0 <= x < len ==> InSome(comps, |comps|, x))
    && (forall i, j, x {:trigger x in comps[i], x in comps[j]} ::
          0 <= i < |comps| && 0 <= j < |comps| && x in comps[i] && x in comps[j] ==> i == j)
  }

  /** `comps` is the decomposition into strongly connected components of the graph on the nodes
      below `len`, listed so that every edge leads into the same or an earlier component. */
  ghost predicate SccDecomposition(len: nat, conn: (nat, nat) -> bool, comps: seq<set<nat>>) {
    && Partition(len, comps)
    && (forall i, x, y {:trigger x in comps[i], y in comps[i]} ::
          0 <= i < |comps| && x in comps[i] && y in comps[i] ==> Reaches(len, conn, x, y))
    && (forall i, j, x, y {:trigger x in comps[i], y in comps[j], Reaches(len, conn, x, y)} ::
          (0 <= i < |comps| && 0 <= j < |comps| && x in comps[i] && y in comps[j] &&
           Reaches(len, conn, x, y) && Reaches(len, conn, y, x)) ==> i == j)
    && (forall i, j, x, y {:trigger x in comps[i], y in comps[j], conn(x, y)} ::
          0 <= i < |comps| && 0 <= j < |comps| && x in comps[i] && y in comps[j] && conn(x, y) ==> j <= i)
  }

  /** The decomposition depends only on the edges, not on how the relation is written. */
  lemma DecompositionCongruent(len: nat, conn: (nat, nat) -> bool, conn': (nat, nat) -> bool, comps: seq<set<nat>>)
    requires forall a, b :: conn(a, b) == conn'(a, b)
    requires SccDecomposition(len, conn, comps)
    ensures SccDecomposition(len, conn', comps)
  {
    forall x, y ensures Reaches(len, conn, x, y) == Reaches(len, conn', x, y) {
      ReachesCongruent(len, conn, conn', x, y);
    }
  }

  /** In a closed prefix of emitted components, a member of component `i` reaches only members of
      components up to `i`. */
  lemma ReachStaysEarlier(len: nat, conn: (nat, nat) -> bool, indexs: seq<Option<nat>>, emitted: seq<set<nat>>,
                          i: nat, x: nat, y: nat)
    requires EmittedOk(len, conn, [], indexs, emitted)
    requires i < |emitted| && x in emitted[i] && Reaches(len, conn, x, y)
    ensures InSome(emitted, i + 1, y)
  {
    var upto := i + 1;
    var s := set z | 0 <= z < len && InSome(emitted, upto, z);
    forall a: nat, b: nat | a in s && b < len && conn(a, b) ensures b in s {
      var j :| 0 <= j < i + 1 && j < |emitted| && a in emitted[j];
      assert InSome(emitted, j + 1, b);
      var k :| 0 <= k < j + 1 && k < |emitted| && b in emitted[k];
      assert InSome(emitted, i + 1, b);
    }
    assert x < len;
    assert InSome(emitted, i + 1, x);
    ClosedContainsReach(len, conn, s, x, y);
  }

  /** Once every node is visited and the stack is empty, the emitted components are the strongly
      connected components, in reverse topological order. */
  lemma EmittedIsDecomposition(len: nat, conn: (nat, nat) -> bool, indexs: seq<Option<nat>>, emitted: seq<set<nat>>)
    requires EmittedOk(len, conn, [], indexs, emitted)
    requires forall x :: 0 <= x < len ==> indexs[x].Some?
    ensures SccDecomposition(len, conn, emitted)
  {
    forall x | 0 <= x < len ensures InSome(emitted, |emitted|, x) {
      assert indexs[x].Some? && x !in [];
    }
    forall i, j, x, y | 0 <= i < |emitted| && 0 <= j < |emitted| && x in emitted[i] && y in emitted[j] &&
                        Reaches(len, conn, x, y) && Reaches(len, conn, y, x)
      ensures i == j
    {
      ReachStaysEarlier(len, conn, indexs, emitted, i, x, y);
      var k :| 0 <= k < i + 1 && k < |emitted| && y in emitted[k];
      ReachStaysEarlier(len, conn, indexs, emitted, j, y, x);
      var l :| 0 <= l < j + 1 && l < |emitted| && x in emitted[l];
    }
    forall i, j, x, y | 0 <= i < |emitted| && 0 <= j < |emitted| && x in emitted[i] && y in emitted[j] && conn(x, y)
      ensures j <= i
    {
      assert InSome(emitted, i + 1, y);
      var k :| 0 <= k < i + 1 && k < |emitted| && y in emitted[k];
    }
  }

  /** The Tarjan object of src/tarjan.rs: the graph is given by the node and edge slices and the
      `isConnect` relation, and the search state lives in fields the methods update. */
  class Tarjan<E, N> {
    const edges: seq<E>
    const nodes: seq<N>
    const isConnect: (seq<E>, seq<N>, nat, nat) -> bool
    const len: nat
    ghost function Conn(): (nat, nat) -> bool { (a: nat, b: nat) => isConnect(edges, nodes, a, b) }

    var index: nat
    var stack: seq<nat>
    var indexs: seq<Option<nat>>
    var lowlinks: seq<nat>
    var onStacks: seq<bool>
    /** The components returned so far, in the order they were completed. */
    ghost var emitted: seq<set<nat>>

    ghost predicate Valid(grays: seq<nat>)
      reads this
    {
      ValidAt(len, Conn(), index, stack, indexs, lowlinks, onStacks, emitted, grays)
    }

    constructor (edges: seq<E>, nodes: seq<N>, isConnect: (seq<E>, seq<N>, nat, nat) -> bool)
      ensures this.edges == edges && this.nodes == nodes && this.isConnect == isConnect && len == |nodes|
      ensures index == 0 && stack == [] && emitted == []
      ensures |indexs| == len && forall x :: 0 <= x < len ==> indexs[x].None?
      ensures |lowlinks| == len && forall x :: 0 <= x < len ==> lowlinks[x] == 0
      ensures |onStacks| == len && forall x :: 0 <= x < len ==> !onStacks[x]
      ensures Valid([])
    {
      this.edges := edges;
      this.nodes := nodes;
      this.isConnect := isConnect;
      len := |nodes|;
      index := 0;
      stack := [];
      indexs := seq(|nodes|, _ => None);
      lowlinks := seq(|nodes|, _ => 0);
      onStacks := seq(|nodes|, _ => false);
      emitted := [];
      new;
      assert VisitedSet(indexs) == {};
    }

    /** Visits `u`, whose caller chain is `grays`, and returns the components completed during the
        visit, in the order they were completed. */
    method StrongConnect(u: nat, ghost grays: seq<nat>) returns (output: seq<set<nat>>)
      requires Valid(grays) && u < len && indexs[u].None?
      requires grays == [] ==> stack == []
      requires grays != [] ==> Conn()(grays[|grays| - 1], u)
      modifies this
      ensures Valid(grays)
      ensures indexs[u] == Some(old(index)) && old(index) < index
      ensures Extends(len, old(stack), old(indexs), old(lowlinks), stack, indexs, lowlinks)
      ensures u !in stack ==> lowlinks[u] == indexs[u].value
      ensures Settled(len, Conn(), stack, indexs, lowlinks[u], |old(stack)|, |stack|)
      ensures emitted == old(emitted) + output
      decreases len - index, 1
    {
      ghost var p := |stack|;
      ExtendsPush(len, stack, indexs, lowlinks, u, index);
      Push(u, grays);
      output := [];
      for v := 0 to len
        invariant Valid(grays + [u])
        invariant p < |stack| && stack[p] == u && indexs[u] == Some(old(index)) && old(index) < index
        invariant Extends(len, old(stack), old(indexs), old(lowlinks), stack, indexs, lowlinks)
        invariant Settled(len, Conn(), stack, indexs, lowlinks[u], p + 1, |stack|)
        invariant OwnSettled(len, Conn(), stack, indexs, lowlinks[u], u, v)
        invariant emitted == old(emitted) + output
      {
        if isConnect(edges, nodes, u, v) {
          ghost var stack1, indexs1, lowlinks1 := stack, indexs, lowlinks;
          ghost var output1 := output;
          var found := Visit(u, v, p, grays);
          output := output + found;
          AppendAssoc(old(emitted), output1, found);
          ExtendsLower(len, old(stack), old(indexs), old(lowlinks), stack1, indexs1, lowlinks1, u, lowlinks[u]);
          ExtendsTrans(len, old(stack), old(indexs), old(lowlinks), stack1, indexs1, lowlinks1[u := lowlinks[u]],
                       stack, indexs, lowlinks);
        } else {
          OwnSettledNext(len, Conn(), stack, indexs, lowlinks[u], u, v);
        }
      }
      RootSettled(len, Conn(), stack, indexs, lowlinks[u], u, p);
      ghost var stack2, output2 := stack, output;
      var out := Finish(u, p, grays);
      output := output + out;
      AppendAssoc(old(emitted), output2, out);
      if stack != stack2 {
        ExtendsTruncate(len, old(stack), old(indexs), old(lowlinks), stack2, indexs, lowlinks);
      }
    }

    /** Runs the search from every node not yet visited, in increasing order, and returns the
        components in the order they were completed. */
    method Run() returns (scc: seq<set<nat>>)
      requires Valid([])
      modifies this
      ensures Valid([]) && stack == []
      ensures forall x :: 0 <= x < len ==> indexs[x].Some? && !onStacks[x] && lowlinks[x] <= indexs[x].value
      ensures emitted == old(emitted) + scc
      ensures SccDecomposition(len, Conn(), emitted)
    {
      scc := [];
      StackEmptyWithoutGrays(len, Conn(), stack, indexs, lowlinks, onStacks);
      for u := 0 to len
        invariant Valid([]) && stack == []
        invariant forall x :: 0 <= x < u ==> indexs[x].Some?
        invariant emitted == old(emitted) + scc
      {
        if indexs[u] == None {
          ghost var indexs0, scc0 := indexs, scc;
          var found := StrongConnect(u, []);
          scc := scc + found;
          AppendAssoc(old(emitted), scc0, found);
          StackEmptyWithoutGrays(len, Conn(), stack, indexs, lowlinks, onStacks);
          assert forall x :: 0 <= x < u ==> indexs0[x].Some?;
        }
      }
      EmittedIsDecomposition(len, Conn(), indexs, emitted);
    }

    /** Numbers the fresh node `u` and pushes it on the stack. */
    method Push(u: nat, ghost grays: seq<nat>)
      requires Valid(grays) && u < len && indexs[u].None?
      requires grays == [] ==> stack == []
      requires grays != [] ==> Conn()(grays[|grays| - 1], u)
      modifies this
      ensures old(index) < len && index == old(index) + 1 && stack == old(stack) + [u] && emitted == old(emitted)
      ensures indexs == old(indexs)[u := Some(old(index))] && lowlinks == old(lowlinks)[u := old(index)]
      ensures onStacks == old(onStacks)[u := true]
      ensures Valid(grays + [u])
    {
      IndexBelowLen(len, index, indexs, u);
      PushOk(len, Conn(), index, stack, indexs, lowlinks, onStacks, emitted, grays, u);
      indexs := indexs[u := Some(index)];
      lowlinks := lowlinks[u := index];
      index := index + 1;
      stack := stack + [u];
      onStacks := onStacks[u := true];
    }

    /** Emits the component rooted at `u` (stacked at `p`) once `u` turns out to be its root. */
    method Finish(u: nat, ghost p: nat, ghost grays: seq<nat>) returns (out: seq<set<nat>>)
      requires Valid(grays + [u]) && u < len && p < |stack| && stack[p] == u
      requires Settled(len, Conn(), stack, indexs, lowlinks[u], p, |stack|)
      modifies this
      ensures Valid(grays)
      ensures index == old(index) && indexs == old(indexs) && lowlinks == old(lowlinks)
      ensures lowlinks[u] == indexs[u].value ==> stack == old(stack)[..p] && out == [Above(old(stack), p)]
      ensures lowlinks[u] != indexs[u].value ==> stack == old(stack) && out == []
      ensures emitted == old(emitted) + out
    {
      if Some(lowlinks[u]) == indexs[u] {
        ghost var stack0, onStacks0 := stack, onStacks;
        var scc := PopComponent(u, p);
        EmitOk(len, Conn(), index, stack0, indexs, lowlinks, onStacks0, emitted, grays, u, p, onStacks);
        emitted := emitted + [scc];
        out := [scc];
      } else {
        FinishOk(len, Conn(), index, stack, indexs, lowlinks, onStacks, emitted, grays, u);
        out := [];
      }
    }

    /** One successor `v` of the node `u` at stack position `p`: an unvisited one is visited and
        lends its lowlink to `u`, a stacked one its number. */
    method Visit(u: nat, v: nat, ghost p: nat, ghost grays: seq<nat>) returns (found: seq<set<nat>>)
      requires Valid(grays + [u]) && u < len && v < len && Conn()(u, v)
      requires p < |stack| && stack[p] == u
      requires Settled(len, Conn(), stack, indexs, lowlinks[u], p + 1, |stack|)
      requires OwnSettled(len, Conn(), stack, indexs, lowlinks[u], u, v)
      modifies this
      ensures Valid(grays + [u])
      ensures p < |stack| && stack[p] == u && indexs[u] == old(indexs[u]) && old(index) <= index
      ensures Extends(len, old(stack), old(indexs), old(lowlinks)[u := lowlinks[u]], stack, indexs, lowlinks)
      ensures Settled(len, Conn(), stack, indexs, lowlinks[u], p + 1, |stack|)
      ensures OwnSettled(len, Conn(), stack, indexs, lowlinks[u], u, v + 1)
      ensures emitted == old(emitted) + found
      decreases len - index, 2
    {
      found := [];
      if indexs[v].None? {
        ghost var stack1, indexs1, lowlinks1 := stack, indexs, lowlinks;
        IndexBelowLen(len, index, indexs, v);
        found := StrongConnect(v, grays + [u]);
        var m := Min(lowlinks[u], lowlinks[v]);
        LowerToChildOk(len, Conn(), index, stack, indexs, lowlinks, onStacks, emitted, grays + [u], u, v);
        SettledStable(len, Conn(), stack1, indexs1, lowlinks1, stack, indexs, lowlinks, lowlinks1[u], m, p + 1);
        SettledJoin(len, Conn(), stack, indexs, m, lowlinks[v], m, p + 1, |stack1|, |stack|);
        OwnSettledStable(len, Conn(), stack1, indexs1, lowlinks1, stack, indexs, lowlinks, lowlinks1[u], m, u, v);
        OwnSettledNext(len, Conn(), stack, indexs, m, u, v);
        ExtendsPatch(len, stack1, indexs1, lowlinks1, stack, indexs, lowlinks, u, m);
        lowlinks := lowlinks[u := m];
      } else if onStacks[v] {
        var m := Min(lowlinks[u], indexs[v].value);
        LowerToStackedOk(len, Conn(), index, stack, indexs, lowlinks, onStacks, emitted, grays + [u], u, v);
        SettledJoin(len, Conn(), stack, indexs, lowlinks[u], lowlinks[u], m, p + 1, |stack|, |stack|);
        OwnSettledLower(len, Conn(), stack, indexs, lowlinks[u], m, u, v);
        OwnSettledNext(len, Conn(), stack, indexs, m, u, v);
        ExtendsRefl(len, stack, indexs, lowlinks);
        ExtendsPatch(len, stack, indexs, lowlinks, stack, indexs, lowlinks, u, m);
        lowlinks := lowlinks[u := m];
      } else {
        OwnSettledNext(len, Conn(), stack, indexs, lowlinks[u], u, v);
        ExtendsRefl(len, stack, indexs, lowlinks);
        assert lowlinks[u := lowlinks[u]] == lowlinks;
      }
    }

    /** Pops the stack down to the root `u` at position `p`, clearing the stack marks of the popped
        nodes, and returns them as one component. */
    method PopComponent(u: nat, ghost p: nat) returns (scc: set<nat>)
      requires StackOk(len, stack, indexs, onStacks) && p < |stack| && stack[p] == u
      modifies this
      ensures scc == Above(old(stack), p) && stack == old(stack)[..p]
      ensures |onStacks| == len && forall x :: 0 <= x < len ==> (onStacks[x] <==> x in stack)
      ensures index == old(index) && indexs == old(indexs) && lowlinks == old(lowlinks) && emitted == old(emitted)
    {
      ghost var stack0, onStacks0 := stack, onStacks;
      scc := {};
      while |stack| > 0
        invariant p < |stack| <= |stack0| && stack == stack0[..|stack|]
        invariant scc == Above(stack0, |stack|)
        invariant |onStacks| == len && forall x :: 0 <= x < len ==> (onStacks[x] <==> x in stack)
        invariant index == old(index) && indexs == old(indexs) && lowlinks == old(lowlinks) && emitted == old(emitted)
        decreases |stack|
      {
        var v := stack[|stack| - 1];
        PopStep(len, stack0, indexs, onStacks0, |stack|, p);
        stack := stack[..|stack| - 1];
        onStacks := onStacks[v := false];
        scc := scc + {v};
        if v == u {
          break;
        }
      }
      assert |stack| == p;
    }
  }
}
