/** The bridge calibration solver (java/7/src/Solver.java): a calculation is
  solvable when some choice of operators, applied strictly left to right,
  turns its operands into its expected total. */
module Calibration {
  import opened Wrappers
  import opened Combinations

  /** A `LongBinaryOperator`; how it computes is the caller's. */
  type Operator = (int, int) -> int

  /** `Calculation`: the expected total and the operands of one equation. */
  datatype Calculation = Calculation(expectedTotal: int, operands: seq<int>)

  /** The operands combined left to right, ((o0 op1 o1) op2 o2) ...: the first
    |ops| + 1 operands are used. */
  function Fold(operands: seq<int>, ops: seq<Operator>): int
    requires |ops| < |operands|
  {
    if ops == [] then operands[0]
    else ops[|ops| - 1](Fold(operands, ops[..|ops| - 1]), operands[|ops|])
  }

  /** Some choice of `|operands| - 1` operators from the list yields the total. */
  ghost predicate Solvable(operators: seq<Operator>, operands: seq<int>, total: int)
    requires |operands| > 0
  {
    exists ds :: |ds| == |operands| - 1 && Indices(ds, |operators|) &&
      Fold(operands, MapToElements(operators, ds)) == total
  }

  /** No choice of operators whose indices spell a number below `n` yields
    the total. */
  ghost predicate Refuted(operators: seq<Operator>, operands: seq<int>, total: int, n: int)
    requires |operands| > 0
  {
    forall ds :: |ds| == |operands| - 1 && Indices(ds, |operators|) && Value(ds, |operators|) < n ==>
      Fold(operands, MapToElements(operators, ds)) != total
  }

  lemma RefutedNone(operators: seq<Operator>, operands: seq<int>, total: int)
    requires |operands| > 0
    ensures Refuted(operators, operands, total, 0)
  {
    forall ds | |ds| == |operands| - 1 && Indices(ds, |operators|)
      ensures Value(ds, |operators|) >= 0
    {
      ValueBound(ds, |operators|);
    }
  }

  /** One more failed combination: the refuted range grows by one. */
  lemma RefuteNext(operators: seq<Operator>, operands: seq<int>, total: int, before: seq<int>)
    requires |operands| > 0 && |before| == |operands| - 1 && Indices(before, |operators|)
    requires Refuted(operators, operands, total, Value(before, |operators|))
    requires Fold(operands, MapToElements(operators, before)) != total
    ensures Refuted(operators, operands, total, Value(before, |operators|) + 1)
  {
    forall ds | |ds| == |operands| - 1 && Indices(ds, |operators|) && Value(ds, |operators|) == Value(before, |operators|)
      ensures Fold(operands, MapToElements(operators, ds)) != total
    {
      ValueInjective(ds, before, |operators|);
    }
  }

  /** Once every combination has failed, the calculation is not solvable. */
  lemma RefutedAll(operators: seq<Operator>, operands: seq<int>, total: int, n: int)
    requires |operands| > 0 && Pow(|operators|, |operands| - 1) <= n
    requires Refuted(operators, operands, total, n)
    ensures !Solvable(operators, operands, total)
  {
    forall ds | |ds| == |operands| - 1 && Indices(ds, |operators|)
      ensures Fold(operands, MapToElements(operators, ds)) != total
    {
      ValueBound(ds, |operators|);
    }
  }

  /** The fold only reads the operands it combines. */
  lemma {:induction false} FoldPrefix(operands: seq<int>, more: seq<int>, ops: seq<Operator>)
    requires |ops| < |operands|
    ensures Fold(operands + more, ops) == Fold(operands, ops)
  {
    if ops != [] {
      FoldPrefix(operands, more, ops[..|ops| - 1]);
      assert (operands + more)[|ops|] == operands[|ops|];
    } else {
      assert (operands + more)[0] == operands[0];
    }
  }

  /** With one operand there is nothing to choose: it must be the total. */
  lemma SingleOperand(operators: seq<Operator>, x: int, total: int)
    ensures Solvable(operators, [x], total) <==> x == total
  {
    if x == total {
      var ds: seq<int> := [];
      assert Fold([x], MapToElements(operators, ds)) == total;
    }
  }

  /** More operators never lose a solution: an equation solvable with `+`
    and `*` stays solvable when concatenation is added. */
  lemma SolvableMonotone(operators: seq<Operator>, more: seq<Operator>, operands: seq<int>, total: int)
    requires |operands| > 0
    ensures Solvable(operators, operands, total) ==> Solvable(operators + more, operands, total)
  {
    if Solvable(operators, operands, total) {
      var ds :| |ds| == |operands| - 1 && Indices(ds, |operators|) &&
        Fold(operands, MapToElements(operators, ds)) == total;
      assert MapToElements(operators + more, ds) == MapToElements(operators, ds);
    }
  }

  /** `applyOperators`: the left fold, one operator at a time. */
  method ApplyOperators(operands: seq<int>, operators: seq<Operator>) returns (result: int)
    requires |operators| < |operands|
    ensures result == Fold(operands, operators)
  {
    result := operands[0];
    for i := 0 to |operators|
      invariant result == Fold(operands, operators[..i])
    {
      var op := operators[i];
      var operand := operands[i + 1];
      assert operators[..i + 1][..i] == operators[..i];
      result := op(result, operand);
    }
    assert operators[..|operators|] == operators;
  }

  /** `Solver`: the operators an equation may use. */
  class Solver {
    const operators: seq<Operator>

    constructor (operators: seq<Operator>)
      ensures this.operators == operators
    {
      this.operators := operators;
    }

    /** `isSolvable`: tries the operator combinations in order until one
      yields the total. An equation without operands makes the iterator's
      size negative, and one with two or more operands but no operators
      makes `next` look into an empty list; both throw. */
    method IsSolvable(calculation: Calculation) returns (r: Result<bool>)
      ensures r.Err? <==> |calculation.operands| == 0 || (|operators| == 0 && |calculation.operands| > 1)
      ensures r.Ok? ==> (r.value <==> Solvable(operators, calculation.operands, calculation.expectedTotal))
    {
      var operands := calculation.operands;
      if |operands| == 0 {
        return Err("Negative array size");
      }
      var combinations := new CombinationsIterator(operators, |operands| - 1);
      ghost var b, size := |operators|, |operands| - 1;
      var more := combinations.HasNext();
      RefutedNone(operators, operands, calculation.expectedTotal);
      while more
        invariant combinations.Valid() && combinations.elements == operators && combinations.currentCombination.Length == size
        invariant fresh(combinations) && fresh(combinations.currentCombination)
        invariant more == combinations.hasRemainingCombinations
        invariant !combinations.Usable() ==> more
        invariant Refuted(operators, operands, calculation.expectedTotal, combinations.yielded)
        decreases Pow(b, size) - combinations.yielded
      {
        ghost var before := combinations.currentCombination[..];
        ghost var count := combinations.yielded;
        var operatorsCombination := combinations.Next();
        if operatorsCombination.Err? {
          return Err(operatorsCombination.error);
        }
        var result := ApplyOperators(operands, operatorsCombination.value);
        if result == calculation.expectedTotal {
          return Ok(true);
        }
        CountStep(count, Pow(b, size));
        RefuteNext(operators, operands, calculation.expectedTotal, before);
        more := combinations.HasNext();
      }
      RefutedAll(operators, operands, calculation.expectedTotal, combinations.yielded);
      return Ok(false);
    }
  }
}
