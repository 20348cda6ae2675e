/** Conversions between symbols, and the parser of one grammar line `Clause:Output`
    (src/syntax/convert.rs). */
module Convert {
  import opened Wrappers
  import opened Syntax

  function TerminalOfChar(c: char): (r: Terminal)
    ensures r.symbol == c
  { Terminal(c) }

  /** `Terminal::try_from(&MixedChar)`. */
  function TryTerminal(m: MixedChar): (r: Result<Terminal>)
    ensures r.Ok? <==> m.Term?
    ensures r.Ok? ==> m == Term(r.value)
  {
    match m
    case Term(t) => Ok(t)
    case Var(_) => Err
  }

  /** `Variable::try_from(&MixedChar)`. */
  function TryVariable(m: MixedChar): (r: Result<Variable>)
    ensures r.Ok? <==> m.Var?
    ensures r.Ok? ==> m == Var(r.value)
  {
    match m
    case Term(_) => Err
    case Var(v) => Ok(v)
  }

  /** Wrapping a symbol and converting it back returns it, and only the matching kind converts. */
  lemma ConversionRoundTrip(t: Terminal, v: Variable)
    ensures TryTerminal(Term(t)) == Ok(t) && TryVariable(Term(t)) == Err
    ensures TryVariable(Var(v)) == Ok(v) && TryTerminal(Var(v)) == Err
  {
  }

  predicate IsAsciiUpper(c: char) {
    'A' <= c <= 'Z'
  }

  /** How the parser classifies an output char: ASCII uppercase letters are variables, every
      other char is a terminal. */
  function SymbolOfChar(c: char): (m: MixedChar)
    ensures m.Var? <==> IsAsciiUpper(c)
    ensures m.Var? ==> m.v.symbol == c
    ensures m.Term? ==> m.t.symbol == c
  {
    if IsAsciiUpper(c) then Var(Variable(c)) else Term(Terminal(c))
  }

  function OutputOf(chars: seq<char>): (r: seq<MixedChar>)
    ensures |r| == |chars|
    ensures forall i :: 0 <= i < |chars| ==> r[i] == SymbolOfChar(chars[i])
  {
    seq(|chars|, i requires 0 <= i < |chars| => SymbolOfChar(chars[i]))
  }

  /** What `Rule::try_from(&str)` returns, stated on the whole line. */
  function RuleOfLine(line: string): Result<Rule> {
    if |line| == 0 || !IsAsciiUpper(line[0]) then Err
    else if |line| >= 2 && line[1] != ':' then Err
    else Ok(Rule(Variable(line[0]), OutputOf(if |line| >= 2 then line[2..] else [])))
  }

  /** The parser: reads the clause char and the separator, then classifies the remaining chars
      one by one, appending each to the rule under construction. */
  method ParseRule(line: string) returns (r: Result<Rule>)
    ensures r == RuleOfLine(line)
  {
    if |line| == 0 {
      return Err;
    }
    var first := line[0];
    if !IsAsciiUpper(first) {
      return Err;
    }
    var rule := NewRule(first);
    var i := 1;
    if i < |line| {
      if line[i] != ':' {
        return Err;
      }
      i := i + 1;
    }
    while i < |line|
      invariant 1 <= i <= |line|
      invariant |line| >= 2 ==> 2 <= i
      invariant rule == Rule(Variable(first), OutputOf(if |line| >= 2 then line[2..i] else []))
    {
      var output := line[i];
      if IsAsciiUpper(output) {
        rule := AddVariable(rule, output);
      } else {
        rule := AddTerminal(rule, output);
      }
      assert line[2..i + 1] == line[2..i] + [output];
      assert OutputOf(line[2..i + 1]) == OutputOf(line[2..i]) + [SymbolOfChar(output)];
      i := i + 1;
    }
    assert |line| >= 2 ==> line[2..i] == line[2..];
    return Ok(rule);
  }

  /** The empty line and a line not starting with an ASCII uppercase letter are rejected. */
  lemma ParseRejectsBadClause(line: string)
    requires |line| == 0 || !IsAsciiUpper(line[0])
    ensures RuleOfLine(line).Err?
  {
  }

  /** A second char other than `:` is rejected. */
  lemma ParseRejectsBadSeparator(line: string)
    requires |line| >= 2 && line[1] != ':'
    ensures RuleOfLine(line).Err?
  {
  }

  /** A lone uppercase letter is an epsilon rule for that variable. */
  lemma ParseSingleLetter(c: char)
    requires IsAsciiUpper(c)
    ensures RuleOfLine([c]) == Ok(Rule(Variable(c), []))
  {
  }

  /** A line parses exactly when it starts with an uppercase letter followed by nothing or `:`;
      the clause is the first char and the output holds the chars after the separator, in order,
      uppercase letters as variables and all other chars as terminals. */
  lemma ParseSucceeds(line: string)
    ensures RuleOfLine(line).Ok? <==> |line| >= 1 && IsAsciiUpper(line[0]) && (|line| == 1 || line[1] == ':')
    ensures RuleOfLine(line).Ok? ==>
      var rule := RuleOfLine(line).value;
      && rule.clause.symbol == line[0]
      && Len(rule) == |line| - 1 - (if |line| >= 2 then 1 else 0)
      && forall i :: 0 <= i < Len(rule) ==>
           (rule.output[i].Var? <==> IsAsciiUpper(line[i + 2]))
           && rule.output[i] == SymbolOfChar(line[i + 2])
  {
  }
}
