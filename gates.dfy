/** Logic gates of the wire-simulation puzzle (rust/24/src/gates.rs). */
module Gates {
  import opened Wrappers

  datatype Gate = AND | XOR | OR

  /** The gate's name as it appears in the puzzle input. */
  function Name(g: Gate): string
  {
    match g
    case AND => "AND"
    case XOR => "XOR"
    case OR => "OR"
  }

  /** `Gate::from`: only the three upper-case names are accepted. */
  function FromName(s: string): (r: Option<Gate>)
    ensures r.Some? <==> (s == "AND" || s == "XOR" || s == "OR")
    ensures r.Some? ==> Name(r.value) == s
  {
    if s == "AND" then Some(AND)
    else if s == "XOR" then Some(XOR)
    else if s == "OR" then Some(OR)
    else None
  }

  /** `Gate::calculate`. Each gate depends only on how many of its inputs
    are true: AND needs both, OR one or more, XOR exactly one. */
  function Calculate(g: Gate, left: bool, right: bool): (r: bool)
    ensures var trues := (if left then 1 else 0) + (if right then 1 else 0);
      r <==> (g == AND && trues == 2) || (g == OR && trues >= 1) || (g == XOR && trues == 1)
  {
    match g
    case AND => left && right
    case XOR => left != right
    case OR => left || right
  }

  /** Parsing a gate's own name gives the gate back. */
  lemma FromNameOfName(g: Gate)
    ensures FromName(Name(g)) == Some(g)
  {
  }

  /** The truth tables: AND is true only on (true, true), OR is false only on
    (false, false), XOR is true exactly when the inputs differ. */
  lemma TruthTables(left: bool, right: bool)
    ensures Calculate(AND, left, right) <==> (left && right)
    ensures !Calculate(OR, left, right) <==> (!left && !right)
    ensures Calculate(XOR, left, right) <==> (Calculate(OR, left, right) && !Calculate(AND, left, right))
  {
  }

  /** Every gate is commutative, and XOR of a wire with itself is false. */
  lemma Commutative(g: Gate, left: bool, right: bool)
    ensures Calculate(g, left, right) == Calculate(g, right, left)
    ensures !Calculate(XOR, left, left)
  {
  }
}
