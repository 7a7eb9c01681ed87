/** The robot chain of rust/21/src/main.rs as it runs: keypad objects whose
  arms move while the presses are searched (`find_steps`,
  `find_steps_recursive`), the cost table filled layer by layer
  (`precompute_solutions`) and the code priced with it
  (`find_numeric_keypad_result`). Each method is proved against the
  functions of `KeypadCosts`. */
module KeypadRobots {
  import opened Wrappers
  import opened KeypadUtils
  import opened Keypads
  import opened PathTable
  import opened KeypadCosts

  /** Presses already found, followed by the outcome of the rest. */
  function Then(steps: seq<DirectionalButton>, r: Result<seq<DirectionalButton>>): Result<seq<DirectionalButton>>
  {
    if r.Err? then r else Ok(steps + r.value)
  }

  /** A count already made, plus the outcome of the rest. */
  function AddTo(n: nat, r: Result<nat>): Result<nat>
  {
    if r.Err? then r else Ok(n + r.value)
  }

  lemma AddToAssoc(a: nat, b: nat, r: Result<nat>)
    ensures AddTo(a, AddTo(b, r)) == AddTo(a + b, r)
  {
  }

  /** `DirectionalButton::all_buttons`, in its order. */
  function AllButtons(): (r: seq<DirectionalButton>)
    ensures |r| == 5
  {
    [Arrow(Up), Arrow(Right), Arrow(Down), Arrow(Left), DirectionalButton.Activate]
  }

  lemma AllButtonsComplete(b: DirectionalButton)
    ensures b in AllButtons()
  {
    match b
    case Arrow(d) =>
      assert d == Up || d == Right || d == Down || d == Left;
    case Activate =>
  }

  /** The reverse map of the directional keypad. */
  function DirectionalPoints(): map<DirectionalButton, Point>
  {
    map b | b in AllButtons() :: DirectionalPoint(b)
  }

  lemma DirectionalPointsLookup()
    ensures forall b :: b in DirectionalPoints() && DirectionalPoints()[b] == DirectionalPoint(b)
  {
    forall b
      ensures b in DirectionalPoints()
    {
      AllButtonsComplete(b);
    }
  }

  /** The reverse map a directional keypad collects is always the same. */
  lemma DirectionalPointsUnique(inverse: map<DirectionalButton, Point>)
    requires InverseOf(DirectionalLayout(), inverse)
    ensures inverse == DirectionalPoints()
  {
    DirectionalInverse(inverse);
    forall b
      ensures b in inverse <==> b in DirectionalPoints()
    {
      AllButtonsComplete(b);
    }
  }

  /** Each keypad of the chain is a directional keypad. */
  predicate Directional(keypads: seq<Keypad<DirectionalButton>>)
    reads set i | 0 <= i < |keypads| :: keypads[i]
  {
    forall i :: 0 <= i < |keypads| ==>
      keypads[i].pointToButton == DirectionalLayout() && keypads[i].buttonToPoint == DirectionalPoints()
  }

  /** The keypads of the chain are distinct objects. */
  predicate Distinct(keypads: seq<Keypad<DirectionalButton>>)
  {
    forall i, j :: 0 <= i < j < |keypads| ==> keypads[i] != keypads[j]
  }

  /** Every arm of the chain rests over A. */
  predicate AllAtActivate(keypads: seq<Keypad<DirectionalButton>>)
    reads set i | 0 <= i < |keypads| :: keypads[i]
  {
    forall i :: 0 <= i < |keypads| ==> keypads[i].current == Point(0, 2)
  }

  /** Every arm but the first rests over A. */
  predicate RestAtActivate(keypads: seq<Keypad<DirectionalButton>>)
    reads set i | 0 <= i < |keypads| :: keypads[i]
  {
    forall i :: 1 <= i < |keypads| ==> keypads[i].current == Point(0, 2)
  }

  /** A chain is its first keypad followed by the rest of the chain. */
  lemma ChainSplit(keypads: seq<Keypad<DirectionalButton>>)
    requires |keypads| > 0
    ensures {keypads[0]} + (set i | 0 <= i < |keypads[1..]| :: keypads[1..][i]) <=
      set i | 0 <= i < |keypads| :: keypads[i]
    ensures Directional(keypads) <==>
      keypads[0].pointToButton == DirectionalLayout() && keypads[0].buttonToPoint == DirectionalPoints() &&
      Directional(keypads[1..])
    ensures RestAtActivate(keypads) == AllAtActivate(keypads[1..])
    ensures Distinct(keypads) ==> Distinct(keypads[1..]) && forall i :: 0 <= i < |keypads[1..]| ==> keypads[1..][i] != keypads[0]
  {
    var rest := keypads[1..];
    forall i | 0 <= i < |rest|
      ensures rest[i] in set i | 0 <= i < |keypads| :: keypads[i]
    {
      assert rest[i] == keypads[i + 1];
    }
    if Directional(rest) {
      forall i | 1 <= i < |keypads|
        ensures keypads[i].pointToButton == DirectionalLayout() && keypads[i].buttonToPoint == DirectionalPoints()
      {
        assert keypads[i] == rest[i - 1];
      }
    }
    if AllAtActivate(rest) {
      forall i | 1 <= i < |keypads|
        ensures keypads[i].current == Point(0, 2)
      {
        assert keypads[i] == rest[i - 1];
      }
    }
  }

  /** Once a prefix of the paths fails, the whole expansion fails the same
    way. */
  lemma {:induction false} BruteAllPrefixErr(layers: nat, paths: seq<seq<Direction>>, k: nat)
    requires k <= |paths| && BruteAll(layers, paths[..k]).Err?
    ensures BruteAll(layers, paths) == BruteAll(layers, paths[..k])
    decreases |paths| - k
  {
    if k < |paths| {
      assert paths[..k + 1][..k] == paths[..k];
      BruteAllPrefixErr(layers, paths, k + 1);
    } else {
      assert paths[..k] == paths;
    }
  }

  lemma ThenEmpty(r: Result<seq<DirectionalButton>>)
    ensures Then([], r) == r
  {
    if r.Ok? {
      assert [] + r.value == r.value;
    }
  }

  lemma ThenAssoc(a: seq<DirectionalButton>, b: seq<DirectionalButton>, r: Result<seq<DirectionalButton>>)
    ensures Then(a, Then(b, r)) == Then(a + b, r)
  {
    if r.Ok? {
      assert a + (b + r.value) == (a + b) + r.value;
    }
  }

  /** One target of `find_steps_recursive`: `BruteSteps` takes the best
    presses for the first target and goes on from it. */
  lemma RecursiveStep(layers: nat, start: Point, here: Point, targets: seq<DirectionalButton>, i: nat,
                      steps: seq<DirectionalButton>)
    requires layers >= 2 && i < |targets|
    requires BruteSteps(layers, start, targets) == Then(steps, BruteSteps(layers, here, targets[i..]))
    ensures var best := BestPresses(layers - 1, DirectionalKeys(), here, DirectionalPoint(targets[i]));
      BruteSteps(layers, start, targets) ==
      if best.Err? then best
      else Then(steps + best.value, BruteSteps(layers, DirectionalPoint(targets[i]), targets[i + 1..]))
  {
    var ts := targets[i..];
    assert ts[0] == targets[i] && ts[1..] == targets[i + 1..];
    var best := BestPresses(layers - 1, DirectionalKeys(), here, DirectionalPoint(targets[i]));
    if best.Ok? {
      ThenAssoc(steps, best.value, BruteSteps(layers, DirectionalPoint(targets[i]), targets[i + 1..]));
    }
  }

  /** One target of `find_steps`, in the same terms. */
  lemma NumericStep(layers: nat, start: Point, here: Point, targets: seq<NumericButton>, i: nat,
                    steps: seq<DirectionalButton>)
    requires i < |targets| && IsNumericKey(targets[i])
    requires NumericSteps(layers, start, targets) == Then(steps, NumericSteps(layers, here, targets[i..]))
    ensures var best := BestPresses(layers, NumericKeys(), here, NumericPoint(targets[i]));
      NumericSteps(layers, start, targets) ==
      if best.Err? then best
      else Then(steps + best.value, NumericSteps(layers, NumericPoint(targets[i]), targets[i + 1..]))
  {
    var ts := targets[i..];
    assert ts[0] == targets[i] && ts[1..] == targets[i + 1..];
    var best := BestPresses(layers, NumericKeys(), here, NumericPoint(targets[i]));
    if best.Ok? {
      ThenAssoc(steps, best.value, NumericSteps(layers, NumericPoint(targets[i]), targets[i + 1..]));
    }
  }

  /** A target the numeric keypad does not have ends `find_steps`. */
  lemma NumericStepMissing(layers: nat, start: Point, here: Point, targets: seq<NumericButton>, i: nat,
                           steps: seq<DirectionalButton>)
    requires i < |targets| && !IsNumericKey(targets[i])
    requires NumericSteps(layers, start, targets) == Then(steps, NumericSteps(layers, here, targets[i..]))
    ensures NumericSteps(layers, start, targets) == Err("called `Option::unwrap()` on a `None` value")
  {
    assert targets[i..][0] == targets[i];
  }

  /** The `for next_keypad_steps in paths_to(target)` loop shared by
    `find_steps` and `find_steps_recursive`: each path, with its activation,
    is handed to the rest of the chain. Started with every arm over A, it
    finds what `BruteAll` finds, and leaves every arm over A again. */
  method ExpandPaths(keypads: seq<Keypad<DirectionalButton>>, paths: seq<seq<Direction>>)
    returns (r: Result<seq<seq<DirectionalButton>>>)
    requires Directional(keypads) && Distinct(keypads)
    modifies set i | 0 <= i < |keypads| :: keypads[i]
    ensures Directional(keypads)
    ensures old(AllAtActivate(keypads)) ==> r == BruteAll(|keypads|, paths)
    ensures old(AllAtActivate(keypads)) && r.Ok? ==> AllAtActivate(keypads)
    decreases |keypads|, 2
  {
    ghost var hyp := AllAtActivate(keypads);
    var results: seq<seq<DirectionalButton>> := [];
    for j := 0 to |paths|
      invariant Directional(keypads)
      invariant hyp ==> AllAtActivate(keypads)
      invariant hyp ==> BruteAll(|keypads|, paths[..j]) == Ok(results)
    {
      assert paths[..j + 1][..j] == paths[..j];
      var steps := Presses(paths[j]);
      var sub := FindStepsRecursive(keypads, steps);
      if sub.Err? {
        if hyp {
          BruteAllPrefixErr(|keypads|, paths, j + 1);
        }
        return Err(sub.error);
      }
      results := results + [sub.value];
    }
    assert paths[..|paths|] == paths;
    r := Ok(results);
  }

  /** The body of the `for target in targets` loops of `find_steps` and
    `find_steps_recursive`: the candidate paths of `pad` to `goal` are
    expanded by the chain behind it, the earliest shortest result is
    returned and the arm of `pad` moves to `goal`. With the chain's arms over
    A it finds `BestPresses` and leaves them over A. */
  method PressThrough<T(==)>(pad: Keypad<T>, chain: seq<Keypad<DirectionalButton>>, goal: T)
    returns (r: Result<seq<DirectionalButton>>)
    requires Directional(chain) && Distinct(chain)
    requires forall i :: 0 <= i < |chain| ==> chain[i] as object != pad
    modifies pad, set i | 0 <= i < |chain| :: chain[i]
    ensures pad.pointToButton == old(pad.pointToButton) && pad.buttonToPoint == old(pad.buttonToPoint)
    ensures Directional(chain)
    ensures goal !in pad.buttonToPoint ==> r == Err("called `Option::unwrap()` on a `None` value")
    ensures goal in pad.buttonToPoint && old(AllAtActivate(chain)) ==>
      r == BestPresses(|chain|, pad.pointToButton.Keys, old(pad.current), pad.buttonToPoint[goal])
    ensures old(AllAtActivate(chain)) && r.Ok? ==>
      AllAtActivate(chain) && goal in pad.buttonToPoint && pad.current == pad.buttonToPoint[goal]
    decreases |chain|, 3
  {
    var paths := pad.PathsTo(goal);
    if paths.Err? {
      return Err(paths.error);
    }
    var results := ExpandPaths(chain, paths.value);
    if results.Err? {
      return Err(results.error);
    }
    if |results.value| == 0 {
      return Err("Find at least one result");
    }
    var best := FirstShortest(results.value);
    var _ := pad.MoveTo(goal);
    r := Ok(best);
  }

  /** `find_steps_recursive`: the presses at the user's keypad that make the
    first keypad of the chain press `targets`. With the arms behind the first
    one over A it finds exactly `BruteSteps`; afterwards the first arm is over
    the last target and the others are over A again. */
  method FindStepsRecursive(keypads: seq<Keypad<DirectionalButton>>, targets: seq<DirectionalButton>)
    returns (r: Result<seq<DirectionalButton>>)
    requires Directional(keypads) && Distinct(keypads)
    modifies set i | 0 <= i < |keypads| :: keypads[i]
    ensures Directional(keypads)
    ensures |keypads| == 0 ==> r == BruteSteps(0, Point(0, 2), targets)
    ensures |keypads| > 0 && old(RestAtActivate(keypads)) ==>
      r == BruteSteps(|keypads|, old(keypads[0].current), targets)
    ensures |keypads| > 0 && old(RestAtActivate(keypads)) && r.Ok? && |targets| > 0 ==>
      RestAtActivate(keypads) && keypads[0].current == DirectionalPoint(targets[|targets| - 1])
    decreases |keypads|, 1
  {
    if |keypads| == 0 {
      if |targets| == 0 {
        return Ok([]);
      }
      return Err("index out of bounds");
    }
    var first := keypads[0];
    DirectionalPointsLookup();
    if |keypads| == 1 {
      if |targets| == 0 {
        return Err("called `Option::unwrap()` on a `None` value");
      }
      var _ := first.MoveTo(targets[|targets| - 1]);
      return Ok(targets);
    }
    ChainSplit(keypads);
    r := PressAll(first, keypads[1..], targets);
    ChainSplit(keypads);
  }

  /** The `for target in targets` loop of `find_steps_recursive` on a chain of
    at least two keypads, its first keypad `first` and the rest `rest`. */
  method PressAll(first: Keypad<DirectionalButton>, rest: seq<Keypad<DirectionalButton>>, targets: seq<DirectionalButton>)
    returns (r: Result<seq<DirectionalButton>>)
    requires first.pointToButton == DirectionalLayout() && first.buttonToPoint == DirectionalPoints()
    requires |rest| > 0 && Directional(rest) && Distinct(rest)
    requires forall i :: 0 <= i < |rest| ==> rest[i] != first
    modifies first, set i | 0 <= i < |rest| :: rest[i]
    ensures first.pointToButton == DirectionalLayout() && first.buttonToPoint == DirectionalPoints()
    ensures Directional(rest)
    ensures old(AllAtActivate(rest)) ==> r == BruteSteps(|rest| + 1, old(first.current), targets)
    ensures old(AllAtActivate(rest)) && r.Ok? && |targets| > 0 ==>
      AllAtActivate(rest) && first.current == DirectionalPoint(targets[|targets| - 1])
    decreases |rest| + 1, 0
  {
    DirectionalPointsLookup();
    ghost var hyp := AllAtActivate(rest);
    ghost var start := first.current;
    var steps: seq<DirectionalButton> := [];
    assert targets[0..] == targets;
    ThenEmpty(BruteSteps(|rest| + 1, start, targets));
    for i := 0 to |targets|
      invariant first.pointToButton == DirectionalLayout() && first.buttonToPoint == DirectionalPoints()
      invariant Directional(rest)
      invariant hyp ==> AllAtActivate(rest)
      invariant hyp ==> BruteSteps(|rest| + 1, start, targets) == Then(steps, BruteSteps(|rest| + 1, first.current, targets[i..]))
      invariant hyp && i > 0 ==> first.current == DirectionalPoint(targets[i - 1])
    {
      ghost var here := first.current;
      var best := PressThrough(first, rest, targets[i]);
      if hyp {
        RecursiveStep(|rest| + 1, start, here, targets, i, steps);
      }
      if best.Err? {
        return Err(best.error);
      }
      steps := steps + best.value;
    }
    assert targets[|targets|..] == [];
    assert BruteSteps(|rest| + 1, first.current, []) == Ok([]);
    assert steps + [] == steps;
    r := Ok(steps);
  }

  /** `find_steps`: the presses at the user's keypad that make the numeric
    keypad press `targets`, through the chain of directional keypads. With
    every directional arm over A it finds exactly `NumericSteps`, and the
    numeric arm ends over the last target. */
  method FindSteps(numeric: Keypad<NumericButton>, keypads: seq<Keypad<DirectionalButton>>, targets: seq<NumericButton>)
    returns (r: Result<seq<DirectionalButton>>)
    requires numeric.Valid() && numeric.pointToButton == NumericLayout()
    requires Directional(keypads) && Distinct(keypads)
    requires forall i :: 0 <= i < |keypads| ==> keypads[i] as object != numeric
    modifies numeric, set i | 0 <= i < |keypads| :: keypads[i]
    ensures numeric.pointToButton == NumericLayout() && numeric.buttonToPoint == old(numeric.buttonToPoint)
    ensures Directional(keypads)
    ensures old(AllAtActivate(keypads)) ==> r == NumericSteps(|keypads|, old(numeric.current), targets)
    ensures old(AllAtActivate(keypads)) && r.Ok? && |targets| > 0 ==>
      numeric.current in numeric.pointToButton && numeric.pointToButton[numeric.current] == targets[|targets| - 1]
  {
    NumericInverse(numeric.buttonToPoint);
    ghost var hyp := AllAtActivate(keypads);
    ghost var start := numeric.current;
    var steps: seq<DirectionalButton> := [];
    assert targets[0..] == targets;
    ThenEmpty(NumericSteps(|keypads|, start, targets));
    for i := 0 to |targets|
      invariant numeric.pointToButton == NumericLayout() && numeric.buttonToPoint == old(numeric.buttonToPoint)
      invariant Directional(keypads)
      invariant hyp ==> AllAtActivate(keypads)
      invariant hyp ==> NumericSteps(|keypads|, start, targets) == Then(steps, NumericSteps(|keypads|, numeric.current, targets[i..]))
      invariant hyp && i > 0 ==> IsNumericKey(targets[i - 1]) && numeric.current == NumericPoint(targets[i - 1])
    {
      ghost var here := numeric.current;
      var best := PressThrough(numeric, keypads, targets[i]);
      if hyp {
        if IsNumericKey(targets[i]) {
          NumericStep(|keypads|, start, here, targets, i, steps);
        } else {
          NumericStepMissing(|keypads|, start, here, targets, i, steps);
        }
      }
      if best.Err? {
        return Err(best.error);
      }
      steps := steps + best.value;
    }
    assert targets[|targets|..] == [];
    assert NumericSteps(|keypads|, numeric.current, []) == Ok([]);
    assert steps + [] == steps;
    r := Ok(steps);
  }
}
