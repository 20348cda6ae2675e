/** The conversions of the older symbol module (src/syntax.rs).  Its symbol types, its `Rule` and
    its builders are those of src/syntax/mod.rs (`Syntax`); what differs is that the variable of a
    symbol is taken out as an `Option` rather than a `Result`. */
module OldSyntax {
  import opened Wrappers
  import opened Syntax
  import Convert

  /** `MixedChar::try_variable`: the wrapped variable, and nothing for a terminal. */
  function TryVariable(m: MixedChar): (r: Option<Variable>)
    ensures r.Some? <==> m.Var?
    ensures forall v :: r == Some(v) <==> m == Var(v)
  {
    match m
    case Term(_) => None
    case Var(v) => Some(v)
  }

  /** `From<Variable> for MixedChar`: the variable wrapped as a symbol, which `try_variable` takes
      back out. */
  function FromVariable(v: Variable): (m: MixedChar)
    ensures m.Var? && m.v == v
    ensures TryVariable(m) == Some(v)
  {
    Var(v)
  }

  /** `try_variable` agrees with the newer `Variable::try_from`: the same variable exactly when that
      one succeeds. */
  lemma TryVariableAsTryFrom(m: MixedChar)
    ensures TryVariable(m).Some? <==> Convert.TryVariable(m).Ok?
    ensures TryVariable(m).Some? ==> TryVariable(m).value == Convert.TryVariable(m).value
  {
  }

  /** The variables among `syms`, in their order: `filter_map(try_variable)`. */
  function VariablesIn(syms: seq<MixedChar>): (r: seq<Variable>)
    ensures forall v :: v in r <==> Var(v) in syms
    ensures |r| <= |syms|
  {
    if syms == [] then []
    else
      var rest := VariablesIn(syms[..|syms| - 1]);
      var last := syms[|syms| - 1];
      assert syms == syms[..|syms| - 1] + [last];
      match TryVariable(last)
      case Some(v) => rest + [v]
      case None => rest
  }
}
