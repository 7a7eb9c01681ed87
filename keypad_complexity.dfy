/** The entry points of rust/21/src/main.rs: `code_complexity`, which runs
  either the cost table or the brute force over freshly built keypads, and
  `complexity_sum`, which weighs each code's complexity by its number. */
module KeypadComplexity {
  import opened Wrappers
  import opened KeypadUtils
  import opened Keypads
  import opened PathTable
  import opened KeypadCosts
  import opened KeypadRobots
  import opened KeypadSolutions

  /** `code_complexity`: the efficient way is the cost table; otherwise a
    numeric keypad and `layers` directional keypads are built, all arms over
    A, and the brute force runs over them. Either way the result is
    `Complexity`. */
  method CodeComplexity(code: string, layers: nat, efficient: bool) returns (r: Result<nat>)
    ensures r == Complexity(code, layers, efficient)
  {
    if efficient {
      r := DynamicProgrammingSolution(code, layers);
    } else {
      r := BruteForceComplexity(code, layers);
    }
  }

  /** The `layers` directional keypads `code_complexity` builds, each new
    and over A. */
  method DirectionalKeypads(layers: nat) returns (keypads: seq<Keypad<DirectionalButton>>)
    ensures |keypads| == layers
    ensures Directional(keypads) && Distinct(keypads) && AllAtActivate(keypads)
    ensures forall i :: 0 <= i < |keypads| ==> fresh(keypads[i])
  {
    keypads := [];
    for l := 0 to layers
      invariant |keypads| == l
      invariant Directional(keypads) && Distinct(keypads) && AllAtActivate(keypads)
      invariant forall i :: 0 <= i < |keypads| ==> fresh(keypads[i])
    {
      var keypad := DirectionalKeypad();
      DirectionalPointsUnique(keypad.buttonToPoint);
      keypads := keypads + [keypad];
    }
  }

  /** The brute-force arm of `code_complexity`. */
  method BruteForceComplexity(code: string, layers: nat) returns (r: Result<nat>)
    ensures r == BaselineComplexity(code, layers)
  {
    var numeric := NumericalKeypad();
    var keypads := DirectionalKeypads(layers);
    var targets := ParseNumeric(code);
    if targets.Err? {
      return Err("Could not parse code to numeric buttons");
    }
    var steps := FindSteps(numeric, keypads, targets.value);
    if steps.Err? {
      return Err(steps.error);
    }
    r := Ok(|steps.value|);
  }

  /** One term of `complexity_sum`, after `sum`. */
  lemma SumTermsStep(terms: seq<Result<nat>>, i: nat, sum: nat)
    requires i < |terms|
    ensures terms[i].Err? ==> AddTo(sum, SumTerms(terms[i..])) == terms[i]
    ensures terms[i].Ok? ==> AddTo(sum, SumTerms(terms[i..])) == AddTo(sum + terms[i].value, SumTerms(terms[i + 1..]))
  {
    var rest := terms[i..];
    assert rest[0] == terms[i] && rest[1..] == terms[i + 1..];
    if terms[i].Ok? {
      AddToAssoc(sum, terms[i].value, SumTerms(terms[i + 1..]));
    }
  }

  /** The closure `complexity_sum` maps over the codes: the complexity, then
    the code number it is multiplied by. */
  method CodeTerm(code: string, layers: nat, efficient: bool) returns (r: Result<nat>)
    ensures r == ComplexityTerm(code, layers, efficient)
  {
    var complexity := CodeComplexity(code, layers, efficient);
    if complexity.Err? {
      return Err(complexity.error);
    }
    var n := CodeNumber(code);
    if n.Err? {
      return Err("Can parse code");
    }
    r := Ok(Times(complexity.value, n.value));
  }

  /** The term of the code at `i`. */
  method CodeTermAt(codes: seq<string>, i: nat, layers: nat, efficient: bool) returns (r: Result<nat>)
    requires i < |codes|
    ensures r == Terms(codes, layers, efficient)[i]
  {
    TermsAt(codes, layers, efficient, i);
    r := CodeTerm(codes[i], layers, efficient);
  }

  /** One pass of the summing loop: the term of the code at `i`, and what
    it does to the running sum. */
  method NextTerm(codes: seq<string>, layers: nat, efficient: bool, i: nat, sum: nat, ghost terms: seq<Result<nat>>)
    returns (term: Result<nat>)
    requires i < |codes| && terms == Terms(codes, layers, efficient)
    ensures term.Err? ==> AddTo(sum, SumTerms(terms[i..])) == term
    ensures term.Ok? ==> AddTo(sum, SumTerms(terms[i..])) == AddTo(sum + term.value, SumTerms(terms[i + 1..]))
  {
    term := CodeTermAt(codes, i, layers, efficient);
    SumTermsStep(terms, i, sum);
  }

  /** `complexity_sum`: each code's complexity times its number, summed; the
    first code whose complexity or number fails ends the sum. */
  method ComplexitySum(codes: seq<string>, layers: nat, efficient: bool) returns (r: Result<nat>)
    ensures r == TotalComplexity(codes, layers, efficient)
  {
    ghost var terms := Terms(codes, layers, efficient);
    var sum: nat := 0;
    assert terms[0..] == terms;
    for i := 0 to |codes|
      invariant SumTerms(terms) == AddTo(sum, SumTerms(terms[i..]))
    {
      var term := NextTerm(codes, layers, efficient, i, sum, terms);
      if term.Err? {
        return Err(term.error);
      }
      sum := sum + term.value;
    }
    assert terms[|codes|..] == [];
    r := Ok(sum);
  }
}
