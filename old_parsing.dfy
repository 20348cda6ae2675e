/** The shift-reduce driver of the oldest generation (src/parsing.rs): `solving` runs the table of
    src/parsingtable.rs over a string of chars, keeping the input position, the current state, the
    symbols read or reduced so far and the stack of states visited. */
module OldParsing {
  import opened Wrappers
  import opened Syntax
  import opened Tables
  import Convert
  import OI = OldItemset
  import Table = OldParsingtable

  type Machine = StateMachine<Option<(Variable, nat)>>

  /** The driver's variables: `string_index`, `state_index`, `output` and `stack`. */
  datatype Config = Config(cursor: nat, state: nat, output: seq<char>, stack: seq<nat>)

  /** How a run ends: `Accept` or `Reject` returned from the loop; the `unwrap` of the empty stack
      after a reduce that popped every state; or, in the model only, the iteration bound used up.
      Each carries the configuration of the iteration that ended it. */
  datatype Outcome = Accepted(at: Config) | Rejected(at: Config) | Underflow(at: Config) | OutOfFuel(at: Config)

  /** What one iteration leaves: a returned outcome, or the configuration of the next iteration. */
  datatype Move = Halt(outcome: Outcome) | Go(next: Config)

  /** Every edge of the table leads to one of its states, and state 0 exists, so neither `next` nor
      `reduce_state` indexes outside the table. */
  ghost predicate MachineOk(m: Machine) {
    && 0 < |m.states|
    && forall i, c :: 0 <= i < |m.states| && c in m.states[i].next ==> m.states[i].next[c] < |m.states|
  }

  /** What holds at the top of every iteration: the position is within the input, one more state
      is stacked than symbols are output, the top of the stack is the current state, and every
      stacked state is one of the table's. */
  ghost predicate Inv(m: Machine, input: seq<char>, c: Config) {
    && c.cursor <= |input|
    && |c.stack| == |c.output| + 1
    && c.stack[|c.stack| - 1] == c.state
    && forall k :: 0 <= k < |c.stack| ==> c.stack[k] < |m.states|
  }

  /** The variables before the loop: position 0, state 0, no output, and state 0 stacked. */
  function Start(): Config {
    Config(0, 0, [], [0])
  }

  /** The driver starts in a configuration the loop can run from. */
  lemma StartOk(m: Machine, input: seq<char>)
    requires MachineOk(m)
    ensures Inv(m, input, Start())
    ensures Start().cursor == 0 && Start().state == 0 && Start().output == [] && Start().stack == [0]
  {
  }

  /** `input.get(string_index).map(Into::into)`: the char at the position as a terminal, and none
      past the end. */
  function Lookahead(input: seq<char>, cursor: nat): (r: Option<Terminal>)
    ensures r.Some? <==> cursor < |input|
    ensures r.Some? ==> r.value.symbol == input[cursor]
  {
    if cursor < |input| then Some(Convert.TerminalOfChar(input[cursor])) else None
  }

  /** `pop` called `k` times on a `Vec`: the last `k` elements gone, or all of them when there are
      fewer, since `pop` on an empty `Vec` does nothing. */
  function Popped<T>(s: seq<T>, k: nat): (r: seq<T>)
    ensures |r| == if k <= |s| then |s| - k else 0
    ensures r == s[..|r|]
  {
    if k <= |s| then s[..|s| - k] else []
  }

  /** Popping once more. */
  lemma PoppedOnce<T>(s: seq<T>, k: nat)
    ensures Popped(s, k + 1) == if |Popped(s, k)| > 0 then Popped(s, k)[..|Popped(s, k)| - 1] else Popped(s, k)
  {
  }

  /** The action of the table in configuration `c`. */
  function ActionAt(m: Machine, input: seq<char>, c: Config): Action
    requires c.state < |m.states|
  {
    Table.Next(m, c.state, Lookahead(input, c.cursor))
  }

  /** One iteration of the loop.  `Accept` and `Reject` return and consume nothing; a shift, which
      the table only gives when there is input left, outputs the input char, moves one position on
      and stacks its target; a reduce pops its count from output and stack, outputs the clause's
      char and stacks the goto from the state now on top, and panics when it popped every state. */
  function Step(m: Machine, input: seq<char>, c: Config): (r: Move)
    requires MachineOk(m) && Inv(m, input, c)
    ensures r.Go? ==> Inv(m, input, r.next)
    ensures r.Halt? ==> r.outcome.at == c && !r.outcome.OutOfFuel?
    ensures r == Halt(Accepted(c)) <==> ActionAt(m, input, c) == Accept
    ensures r == Halt(Rejected(c)) <==> ActionAt(m, input, c) == Reject
    ensures ActionAt(m, input, c).Shift? ==> c.cursor < |input|
    ensures ActionAt(m, input, c).Shift? <==> r.Go? && r.next.cursor == c.cursor + 1
    ensures r.Go? && r.next.cursor == c.cursor + 1 ==> r.next.output == c.output + [input[c.cursor]]
    ensures r.Go? && r.next.cursor != c.cursor + 1 ==> r.next.cursor == c.cursor
    ensures r == Halt(Underflow(c)) <==> ActionAt(m, input, c).Reduce? && |c.output| < ActionAt(m, input, c).length
  {
    var a := ActionAt(m, input, c);
    match a
    case Accept => Halt(Accepted(c))
    case Reject => Halt(Rejected(c))
    case Shift(next) =>
      Go(Config(c.cursor + 1, next, c.output + [input[c.cursor]], c.stack + [next]))
    case Reduce(variable, popCount) =>
      var stack := Popped(c.stack, popCount);
      if |stack| == 0 then Halt(Underflow(c))
      else
        var state := ReduceState(m, stack[|stack| - 1], variable);
        Go(Config(c.cursor, state, Popped(c.output, popCount) + [variable.symbol], stack + [state]))
  }

  /** The loop run for at most `fuel` iterations from `c`. */
  function Run(m: Machine, input: seq<char>, c: Config, fuel: nat): (r: Outcome)
    requires MachineOk(m) && Inv(m, input, c)
    ensures Inv(m, input, r.at)
    ensures c.cursor <= r.at.cursor
    ensures r.Accepted? ==> ActionAt(m, input, r.at) == Accept
    ensures r.Rejected? ==> ActionAt(m, input, r.at) == Reject
    ensures r.Underflow? ==> ActionAt(m, input, r.at).Reduce? && |r.at.output| < ActionAt(m, input, r.at).length
    decreases fuel
  {
    if fuel == 0 then OutOfFuel(c)
    else
      match Step(m, input, c)
      case Halt(o) => o
      case Go(next) => Run(m, input, next, fuel - 1)
  }

  /** More iterations never change a run that ended within fewer: the bound only cuts a run off. */
  lemma {:induction false} RunFuel(m: Machine, input: seq<char>, c: Config, fuel: nat, more: nat)
    requires MachineOk(m) && Inv(m, input, c) && fuel <= more
    requires !Run(m, input, c, fuel).OutOfFuel?
    ensures Run(m, input, c, more) == Run(m, input, c, fuel)
    decreases fuel
  {
    match Step(m, input, c)
    case Halt(o) =>
    case Go(next) => RunFuel(m, input, next, fuel - 1, more - 1);
  }

  /** The position moves at most one char per iteration, so a run of `fuel` iterations reads at
      most `fuel` chars. */
  lemma {:induction false} RunReads(m: Machine, input: seq<char>, c: Config, fuel: nat)
    requires MachineOk(m) && Inv(m, input, c)
    ensures Run(m, input, c, fuel).at.cursor <= c.cursor + fuel
    decreases fuel
  {
    if fuel > 0 {
      var r := Step(m, input, c);
      if r.Go? {
        assert r.next.cursor <= c.cursor + 1;
        RunReads(m, input, r.next, fuel - 1);
      }
    }
  }

  /** One iteration of `solving`'s loop on the driver's variables. */
  method Advance(m: Machine, input: seq<char>, c: Config) returns (r: Move)
    requires MachineOk(m) && Inv(m, input, c)
    ensures r == Step(m, input, c)
  {
    var action := Table.Next(m, c.state, Lookahead(input, c.cursor));
    match action {
      case Accept => return Halt(Accepted(c));
      case Reject => return Halt(Rejected(c));
      case Shift(next) =>
        return Go(Config(c.cursor + 1, next, c.output + [input[c.cursor]], c.stack + [next]));
      case Reduce(variable, popCount) =>
        var output, stack := c.output, c.stack;
        for p := 0 to popCount
          invariant output == Popped(c.output, p) && stack == Popped(c.stack, p)
        {
          PoppedOnce(c.output, p);
          PoppedOnce(c.stack, p);
          if |output| > 0 {
            output := output[..|output| - 1];
          }
          if |stack| > 0 {
            stack := stack[..|stack| - 1];
          }
        }
        if |stack| == 0 {
          return Halt(Underflow(c));
        }
        var state := ReduceState(m, stack[|stack| - 1], variable);
        return Go(Config(c.cursor, state, output + [variable.symbol], stack + [state]));
    }
  }

  /** `solving`: from the start configuration, one iteration after another until the table
      accepts or rejects, a reduce empties the stack, or `fuel` iterations have been made. */
  method Solving(input: seq<char>, m: Machine, fuel: nat) returns (outcome: Outcome)
    requires MachineOk(m)
    ensures outcome == Run(m, input, Start(), fuel)
  {
    var c := Start();
    var steps: nat := 0;
    while steps < fuel
      invariant steps <= fuel && Inv(m, input, c)
      invariant Run(m, input, c, fuel - steps) == Run(m, input, Start(), fuel)
      decreases fuel - steps
    {
      var move := Advance(m, input, c);
      match move {
        case Halt(o) => return o;
        case Go(next) => c := next;
      }
      steps := steps + 1;
    }
    return OutOfFuel(c);
  }

  /** The table `from_itemset` builds from a non-empty sequence of well-formed item sets, such as
      the one `generate_next` leaves, keeps the driver inside the table. */
  lemma BuiltMachineOk(sets: seq<OI.ItemSet>, rules: seq<Rule>, m: Machine)
    requires 0 < |sets| && |m.states| == |sets|
    requires forall i :: 0 <= i < |sets| ==> Table.Linkable(rules, sets[i], sets)
    requires forall i :: 0 <= i < |sets| ==> m.states[i].next == Table.EdgesOf(sets, rules, sets[i])
    ensures MachineOk(m)
  {
    Table.TargetsAreStates(sets, rules, m);
  }
}
