/** Grammar symbols, symbol strings and rules (src/syntax/mod.rs). */
module Syntax {
  import opened Wrappers
  import Orders

  /** The end-of-input terminal, a Unicode noncharacter no grammar line can contain. */
  const END_TERMINAL: char := '\U{FDD0}'
  /** The clause of the augmented start rule. */
  const END_VARIABLE: char := '\U{FDD1}'
  /** Greek small letter epsilon, the "no input" lookahead. */
  const EPSILON: char := '\U{03B5}'

  datatype Terminal = Terminal(symbol: char)
  datatype Variable = Variable(symbol: char)

  /** A grammar symbol.  The derived `Ord` of the Rust enum compares the variant first
      (every terminal before every variable) and then the wrapped char. */
  datatype MixedChar = Term(t: Terminal) | Var(v: Variable)

  function End(): (r: Terminal)
    ensures r.symbol == END_TERMINAL
  { Terminal(END_TERMINAL) }

  function Epsilon(): (r: Terminal)
    ensures r.symbol == EPSILON
  { Terminal(EPSILON) }

  function Accept(): (r: Variable)
    ensures r.symbol == END_VARIABLE
  { Variable(END_VARIABLE) }

  /** The three sentinels are pairwise distinct. */
  lemma SentinelsDistinct()
    ensures End() != Epsilon()
    ensures Var(Accept()) != Term(End()) && Var(Accept()) != Term(Epsilon())
    ensures Accept().symbol != End().symbol && Accept().symbol != Epsilon().symbol
  {
  }

  /** The derived order on `MixedChar`. */
  predicate MixedLess(a: MixedChar, b: MixedChar) {
    match (a, b)
    case (Term(x), Term(y)) => x.symbol < y.symbol
    case (Term(_), Var(_)) => true
    case (Var(_), Term(_)) => false
    case (Var(x), Var(y)) => x.symbol < y.symbol
  }

  /** An integer key that realises the derived order: terminals occupy the code-point range, and
      variables the range above it. */
  function Rank(m: MixedChar): (k: int)
    ensures m.Term? ==> 0 <= k < 0x11_0000
    ensures m.Var? ==> 0x11_0000 <= k
  {
    match m
    case Term(t) => t.symbol as int
    case Var(v) => 0x11_0000 + v.symbol as int
  }

  /** Terminals before variables, by char within a kind; `Rank` orders exactly as the derived `Ord`. */
  lemma RankOrdersAsDerived(a: MixedChar, b: MixedChar)
    ensures MixedLess(a, b) <==> Rank(a) < Rank(b)
    ensures Rank(a) == Rank(b) <==> a == b
  {
  }

  lemma RankInjective(s: set<MixedChar>)
    ensures Orders.InjectiveOn(s, Rank)
  {
    forall x, y | x in s && y in s && Rank(x) == Rank(y) ensures x == y {
      RankOrdersAsDerived(x, y);
    }
  }

  /** Each symbol of `r` comes before every later one in the derived order. */
  predicate InOrder(r: seq<MixedChar>) {
    forall i, j :: 0 <= i < j < |r| ==> MixedLess(r[i], r[j])
  }

  /** Iterating a `BTreeSet<MixedChar>`: every symbol once, in the derived order. */
  method Ascending(s: set<MixedChar>) returns (r: seq<MixedChar>)
    ensures |r| == |s|
    ensures forall x :: x in r <==> x in s
    ensures InOrder(r)
  {
    RankInjective(s);
    r := Orders.SortedBy(s, Rank);
    forall i, j | 0 <= i < j < |r| ensures MixedLess(r[i], r[j]) {
      assert Orders.OrderedBy(r, Rank, i, j);
      RankOrdersAsDerived(r[i], r[j]);
    }
  }

  /** A string of grammar symbols that grows and shrinks at its end. */
  class MixedString {
    var data: seq<MixedChar>

    constructor ()
      ensures data == []
    {
      data := [];
    }

    method PushVariable(symbol: Variable)
      modifies this
      ensures data == old(data) + [Var(symbol)]
    {
      data := data + [Var(symbol)];
    }

    method PushTerminal(symbol: Terminal)
      modifies this
      ensures data == old(data) + [Term(symbol)]
    {
      data := data + [Term(symbol)];
    }

    /** Drops the last symbol; an empty string stays empty. */
    method Pop()
      modifies this
      ensures old(data) == [] ==> data == []
      ensures old(data) != [] ==> data + [old(data)[|old(data)| - 1]] == old(data)
    {
      if data != [] {
        data := data[..|data| - 1];
      }
    }
  }

  /** A string of terminals, the parser's input. */
  class TerminalString {
    var data: seq<Terminal>

    constructor ()
      ensures data == []
    {
      data := [];
    }

    /** `From<&[char]>`: one terminal per char, in order (src/syntax/convert.rs). */
    constructor FromChars(chars: seq<char>)
      ensures data == TerminalsOf(chars)
    {
      data := TerminalsOf(chars);
    }

    method PushChar(symbol: char)
      modifies this
      ensures data == old(data) + [Terminal(symbol)]
    {
      data := data + [Terminal(symbol)];
    }

    method PushTerminal(symbol: Terminal)
      modifies this
      ensures data == old(data) + [symbol]
    {
      data := data + [symbol];
    }

    method Pop()
      modifies this
      ensures old(data) == [] ==> data == []
      ensures old(data) != [] ==> data + [old(data)[|old(data)| - 1]] == old(data)
    {
      if data != [] {
        data := data[..|data| - 1];
      }
    }

    /** Some terminal exactly at the indices inside the string. */
    function Get(index: nat): (r: Option<Terminal>)
      reads this
      ensures r.Some? <==> index < |data|
      ensures r.Some? ==> r.value == data[index]
    {
      if index < |data| then Some(data[index]) else None
    }
  }

  /** The chars, each wrapped as a terminal, order and length kept. */
  function TerminalsOf(chars: seq<char>): (r: seq<Terminal>)
    ensures |r| == |chars|
    ensures forall i :: 0 <= i < |chars| ==> r[i].symbol == chars[i]
  {
    seq(|chars|, i requires 0 <= i < |chars| => Terminal(chars[i]))
  }

  /** A production `clause -> output`.  Rules are copied wherever they are stored, so the
      builders are modelled as functions returning the extended rule. */
  datatype Rule = Rule(clause: Variable, output: seq<MixedChar>)

  function NewRule(start: char): (r: Rule)
    ensures r.clause.symbol == start
    ensures Len(r) == 0
  {
    Rule(Variable(start), [])
  }

  function AddTerminal(r: Rule, terminal: char): (r': Rule)
    ensures r'.clause == r.clause
    ensures Len(r') == Len(r) + 1
    ensures r'.output[..Len(r)] == r.output
    ensures r'.output[Len(r)] == Term(Terminal(terminal))
  {
    Rule(r.clause, r.output + [Term(Terminal(terminal))])
  }

  function AddVariable(r: Rule, variable: char): (r': Rule)
    ensures r'.clause == r.clause
    ensures Len(r') == Len(r) + 1
    ensures r'.output[..Len(r)] == r.output
    ensures r'.output[Len(r)] == Var(Variable(variable))
  {
    Rule(r.clause, r.output + [Var(Variable(variable))])
  }

  function Len(r: Rule): nat {
    |r.output|
  }

  /** The variables among a set of symbols. */
  function VariablesOf(s: set<MixedChar>): (r: set<Variable>)
    ensures forall v :: v in r <==> Var(v) in s
  {
    set m | m in s && m.Var? :: m.v
  }
}
