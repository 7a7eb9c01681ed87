/** What the robot chain of rust/21/src/main.rs computes, as functions: the
  button presses the brute-force search finds (`find_steps`,
  `find_steps_recursive`), the per-layer cost table of the dynamic programme
  (`precompute_solutions`, `find_numeric_keypad_result`), and the theorem
  that both give the same number of presses. */
module KeypadCosts {
  import opened Wrappers
  import opened KeypadUtils
  import opened Keypads
  import opened PathTable

  /** The buttons a keypad one layer up presses to walk `path` and then
    activate. */
  function Presses(path: seq<Direction>): (r: seq<DirectionalButton>)
    ensures |r| == |path| + 1 && r[|path|] == DirectionalButton.Activate
    ensures forall i :: 0 <= i < |path| ==> r[i] == Arrow(path[i])
  {
    seq(|path|, i requires 0 <= i < |path| => Arrow(path[i])) + [DirectionalButton.Activate]
  }

  /** `sort_by_key(len)` is stable, so `first()` is the earliest of the
    shortest results. */
  function FirstShortest(results: seq<seq<DirectionalButton>>): (r: seq<DirectionalButton>)
    requires |results| > 0
    ensures forall i :: 0 <= i < |results| ==> |r| <= |results[i]|
    ensures exists j :: 0 <= j < |results| && results[j] == r && forall i :: 0 <= i < j ==> |results[i]| > |r|
  {
    if |results| == 1 then results[0]
    else
      var rest := FirstShortest(results[1..]);
      assert forall i :: 1 <= i < |results| ==> results[i] == results[1..][i - 1];
      if |results[0]| <= |rest| then results[0] else rest
  }

  /** The presses found for one target: the candidate paths to `goal`, each
    expanded through the keypads above, and the earliest shortest result. */
  function BestPresses(layers: nat, buttons: set<Point>, at: Point, goal: Point): Result<seq<DirectionalButton>>
    decreases layers, 3, 0
  {
    var paths := Paths(buttons, at, goal);
    if paths.Err? then Err(paths.error)
    else
      var results := BruteAll(layers, paths.value);
      if results.Err? then Err(results.error)
      else if |results.value| == 0 then Err("Find at least one result")
      else Ok(FirstShortest(results.value))
  }

  /** The presses `find_steps_recursive` finds on a chain of `layers`
    directional keypads whose first arm is over `at` and whose other arms
    are over A, to press `targets` on the first. */
  function BruteSteps(layers: nat, at: Point, targets: seq<DirectionalButton>): Result<seq<DirectionalButton>>
    decreases layers, 1, |targets|
  {
    if layers == 0 then
      if |targets| == 0 then Ok([]) else Err("index out of bounds")
    else if layers == 1 then
      if |targets| == 0 then Err("called `Option::unwrap()` on a `None` value") else Ok(targets)
    else if |targets| == 0 then Ok([])
    else
      var goal := DirectionalPoint(targets[0]);
      var best := BestPresses(layers - 1, DirectionalKeys(), at, goal);
      if best.Err? then best
      else
        var rest := BruteSteps(layers, goal, targets[1..]);
        if rest.Err? then rest else Ok(best.value + rest.value)
  }

  /** The presses found for each candidate path, in order. */
  function BruteAll(layers: nat, paths: seq<seq<Direction>>): Result<seq<seq<DirectionalButton>>>
    decreases layers, 2, |paths|
  {
    if |paths| == 0 then Ok([])
    else
      var prefix := BruteAll(layers, paths[..|paths| - 1]);
      if prefix.Err? then prefix
      else
        var last := BruteSteps(layers, DirectionalPoint(DirectionalButton.Activate), Presses(paths[|paths| - 1]));
        if last.Err? then Err(last.error) else Ok(prefix.value + [last.value])
  }

  /** The presses `find_steps` finds for `targets` on the numeric keypad, its
    arm over `at`, through `layers` directional keypads. */
  function NumericSteps(layers: nat, at: Point, targets: seq<NumericButton>): Result<seq<DirectionalButton>>
    decreases |targets|
  {
    if |targets| == 0 then Ok([])
    else if !IsNumericKey(targets[0]) then Err("called `Option::unwrap()` on a `None` value")
    else
      var goal := NumericPoint(targets[0]);
      var best := BestPresses(layers, NumericKeys(), at, goal);
      if best.Err? then best
      else
        var rest := NumericSteps(layers, goal, targets[1..]);
        if rest.Err? then rest else Ok(best.value + rest.value)
  }

  /** The cost table of `precompute_solutions(layers)`: presses at the user's
    keypad to move the arm of the last of `layers` directional keypads from
    `from` to `to` and press it. */
  function Cost(layers: nat, from: DirectionalButton, to: DirectionalButton): nat
    requires layers >= 1
    decreases layers, 0, 0
  {
    if layers == 1 then 1 else MinCost(layers - 1, DirectionalPaths(from, to))
  }

  /** The running minimum over the candidate paths. */
  function MinCost(layers: nat, paths: seq<seq<Direction>>): nat
    requires layers >= 1 && |paths| >= 1
    decreases layers, 2, |paths|
  {
    var cost := PressCost(layers, DirectionalButton.Activate, Presses(paths[|paths| - 1]));
    if |paths| == 1 then cost
    else
      var before := MinCost(layers, paths[..|paths| - 1]);
      if cost < before then cost else before
  }

  /** The cost of pressing `steps` in order, the arm starting over `from`. */
  function PressCost(layers: nat, from: DirectionalButton, steps: seq<DirectionalButton>): nat
    requires layers >= 1
    decreases layers, 1, |steps|
  {
    if |steps| == 0 then 0 else Cost(layers, from, steps[0]) + PressCost(layers, steps[0], steps[1..])
  }

  /** The running minimum over one more path. */
  lemma MinCostSnoc(layers: nat, paths: seq<seq<Direction>>, j: nat)
    requires layers >= 1 && j < |paths|
    ensures var cost := PressCost(layers, DirectionalButton.Activate, Presses(paths[j]));
      MinCost(layers, paths[..j + 1]) ==
      if j == 0 then cost else if cost < MinCost(layers, paths[..j]) then cost else MinCost(layers, paths[..j])
  {
    var p := paths[..j + 1];
    assert p[|p| - 1] == paths[j] && p[..|p| - 1] == paths[..j];
  }

  /** The running minimum is the cost of one of the paths and at most the
    cost of each. */
  lemma {:induction false} MinCostIsMinimum(layers: nat, paths: seq<seq<Direction>>)
    requires layers >= 1 && |paths| >= 1
    ensures forall i :: 0 <= i < |paths| ==>
      MinCost(layers, paths) <= PressCost(layers, DirectionalButton.Activate, Presses(paths[i]))
    ensures exists j :: (0 <= j < |paths| &&
      MinCost(layers, paths) == PressCost(layers, DirectionalButton.Activate, Presses(paths[j])))
    decreases |paths|
  {
    var n := |paths| - 1;
    var last := PressCost(layers, DirectionalButton.Activate, Presses(paths[n]));
    if n == 0 {
      assert MinCost(layers, paths) == last;
    } else {
      var before := MinCost(layers, paths[..n]);
      assert MinCost(layers, paths) == if last < before then last else before;
      MinCostIsMinimum(layers, paths[..n]);
      forall i | 0 <= i < |paths|
        ensures MinCost(layers, paths) <= PressCost(layers, DirectionalButton.Activate, Presses(paths[i]))
      {
        if i < n {
          assert paths[..n][i] == paths[i];
        }
      }
      if before <= last {
        var j :| 0 <= j < n && before == PressCost(layers, DirectionalButton.Activate, Presses(paths[..n][j]));
        assert paths[..n][j] == paths[j];
      }
    }
  }

  /** `find_numeric_keypad_result`: for each target the cheapest path on the
    numeric keypad, priced with the table of `layers` directional keypads. */
  function NumericCost(layers: nat, at: Point, targets: seq<NumericButton>): Result<nat>
    requires layers >= 1
    decreases |targets|
  {
    if |targets| == 0 then Ok(0)
    else if !IsNumericKey(targets[0]) then Err("called `Option::unwrap()` on a `None` value")
    else
      var goal := NumericPoint(targets[0]);
      NumericStepCost(layers, Paths(NumericKeys(), at, goal), NumericCost(layers, goal, targets[1..]))
  }

  /** One target of `NumericCost`: the least price of the candidate paths
    to it, then the price of the rest; a failed lookup of the paths or no
    path at all panics. */
  function NumericStepCost(layers: nat, paths: Result<seq<seq<Direction>>>, rest: Result<nat>): Result<nat>
    requires layers >= 1
  {
    if paths.Err? then Err(paths.error)
    else if |paths.value| == 0 then Err("Finds a minimum number of presses")
    else if rest.Err? then rest
    else Ok(MinCost(layers, paths.value) + rest.value)
  }

  /** With a single directional keypad every press costs one. */
  lemma {:induction false} PressCostOne(from: DirectionalButton, steps: seq<DirectionalButton>)
    ensures PressCost(1, from, steps) == |steps|
    decreases |steps|
  {
    if |steps| > 0 {
      PressCostOne(steps[0], steps[1..]);
    }
  }

  /** The shortest of the results for some paths is as long as the cheapest
    path, when each result is as long as its path's cost. */
  lemma ShortestIsMinCost(layers: nat, paths: seq<seq<Direction>>, results: seq<seq<DirectionalButton>>)
    requires layers >= 1 && |paths| >= 1 && |results| == |paths|
    requires forall j :: 0 <= j < |paths| ==>
      |results[j]| == PressCost(layers, DirectionalButton.Activate, Presses(paths[j]))
    ensures |FirstShortest(results)| == MinCost(layers, paths)
  {
    MinCostIsMinimum(layers, paths);
    var j :| 0 <= j < |paths| &&
      MinCost(layers, paths) == PressCost(layers, DirectionalButton.Activate, Presses(paths[j]));
    assert |FirstShortest(results)| <= |results[j]|;
  }

  /** For one target the brute force fails exactly when there is no
    candidate path, and otherwise finds as many presses as the cheapest
    path costs. */
  lemma {:induction false} BestPressesCost(layers: nat, buttons: set<Point>, at: Point, goal: Point)
    requires layers >= 1
    ensures Paths(buttons, at, goal).Ok?
    ensures BestPresses(layers, buttons, at, goal).Ok? <==> |Paths(buttons, at, goal).value| >= 1
    ensures BestPresses(layers, buttons, at, goal).Ok? ==>
      |BestPresses(layers, buttons, at, goal).value| == MinCost(layers, Paths(buttons, at, goal).value)
    decreases layers, 3, 0
  {
    PathsSpec(buttons, at, goal);
    var paths := Paths(buttons, at, goal).value;
    BruteAllCost(layers, paths);
    if |paths| >= 1 {
      ShortestIsMinCost(layers, paths, BruteAll(layers, paths).value);
    }
  }

  /** The brute-force presses number exactly the table cost: on
    `layers` keypads, pressing `targets` from `from` takes
    PressCost(layers, from, targets) presses. */
  lemma {:induction false} BruteStepsCost(layers: nat, from: DirectionalButton, targets: seq<DirectionalButton>)
    requires layers >= 1 && (|targets| > 0 || layers >= 2)
    ensures BruteSteps(layers, DirectionalPoint(from), targets).Ok?
    ensures |BruteSteps(layers, DirectionalPoint(from), targets).value| == PressCost(layers, from, targets)
    decreases layers, 1, |targets|
  {
    if layers == 1 {
      PressCostOne(from, targets);
      assert BruteSteps(layers, DirectionalPoint(from), targets) == Ok(targets);
    } else if |targets| > 0 {
      var t := targets[0];
      BestPressesCost(layers - 1, DirectionalKeys(), DirectionalPoint(from), DirectionalPoint(t));
      DirectionalPathsArePaths(from, t);
      var best := BestPresses(layers - 1, DirectionalKeys(), DirectionalPoint(from), DirectionalPoint(t));
      assert |best.value| == Cost(layers, from, t);
      BruteStepsCost(layers, t, targets[1..]);
      var rest := BruteSteps(layers, DirectionalPoint(t), targets[1..]);
      assert BruteSteps(layers, DirectionalPoint(from), targets) == Ok(best.value + rest.value);
      assert PressCost(layers, from, targets) == Cost(layers, from, t) + PressCost(layers, t, targets[1..]);
    } else {
      assert BruteSteps(layers, DirectionalPoint(from), targets) == Ok([]);
    }
  }

  /** On `layers` keypads every candidate path is found, each result as long
    as the path's cost. */
  lemma {:induction false} BruteAllCost(layers: nat, paths: seq<seq<Direction>>)
    requires layers >= 1
    ensures BruteAll(layers, paths).Ok? && |BruteAll(layers, paths).value| == |paths|
    ensures forall j :: 0 <= j < |paths| ==>
      |BruteAll(layers, paths).value[j]| == PressCost(layers, DirectionalButton.Activate, Presses(paths[j]))
    decreases layers, 2, |paths|
  {
    if |paths| > 0 {
      var n := |paths| - 1;
      BruteAllCost(layers, paths[..n]);
      BruteStepsCost(layers, DirectionalButton.Activate, Presses(paths[n]));
      var prefix := BruteAll(layers, paths[..n]).value;
      var last := BruteSteps(layers, DirectionalPoint(DirectionalButton.Activate), Presses(paths[n])).value;
      BruteAllSnoc(layers, paths, prefix, last);
      forall j | 0 <= j < |paths|
        ensures |(prefix + [last])[j]| == PressCost(layers, DirectionalButton.Activate, Presses(paths[j]))
      {
        if j < n {
          assert paths[..n][j] == paths[j];
        }
      }
    }
  }

  /** The search over one more candidate path. */
  lemma BruteAllSnoc(layers: nat, paths: seq<seq<Direction>>, prefix: seq<seq<DirectionalButton>>,
                     last: seq<DirectionalButton>)
    requires |paths| > 0 && BruteAll(layers, paths[..|paths| - 1]) == Ok(prefix)
    requires BruteSteps(layers, DirectionalPoint(DirectionalButton.Activate), Presses(paths[|paths| - 1])) == Ok(last)
    ensures BruteAll(layers, paths) == Ok(prefix + [last])
  {
  }

  /** The numeric search and the numeric pricing agree: they fail together,
    and otherwise the presses found number the price. */
  lemma {:induction false} NumericStepsCost(layers: nat, at: Point, targets: seq<NumericButton>)
    requires layers >= 1
    ensures NumericSteps(layers, at, targets).Ok? <==> NumericCost(layers, at, targets).Ok?
    ensures NumericSteps(layers, at, targets).Ok? ==>
      |NumericSteps(layers, at, targets).value| == NumericCost(layers, at, targets).value
    decreases |targets|
  {
    if |targets| > 0 && IsNumericKey(targets[0]) {
      var goal := NumericPoint(targets[0]);
      BestPressesCost(layers, NumericKeys(), at, goal);
      NumericStepsCost(layers, goal, targets[1..]);
    }
  }

  /** From a point to itself the only path is the empty one. */
  lemma SamePointPaths(buttons: set<Point>, p: Point)
    ensures Paths(buttons, p, p).Ok? && forall path :: path in Paths(buttons, p, p).value ==> path == []
  {
    PathsSpec(buttons, p, p);
  }

  /** Pressing the button the arm is already over costs one press on every
    layer. */
  lemma {:induction false} SameButtonCost(layers: nat, b: DirectionalButton)
    requires layers >= 1
    ensures Cost(layers, b, b) == 1
    decreases layers
  {
    if layers > 1 {
      var paths := DirectionalPaths(b, b);
      DirectionalPathsArePaths(b, b);
      SamePointPaths(DirectionalKeys(), DirectionalPoint(b));
      MinCostIsMinimum(layers - 1, paths);
      var j :| 0 <= j < |paths| &&
        MinCost(layers - 1, paths) == PressCost(layers - 1, DirectionalButton.Activate, Presses(paths[j]));
      assert paths[j] in paths;
      assert Presses(paths[j]) == [DirectionalButton.Activate];
      SameButtonCost(layers - 1, DirectionalButton.Activate);
      assert PressCost(layers - 1, DirectionalButton.Activate, [DirectionalButton.Activate])
        == Cost(layers - 1, DirectionalButton.Activate, DirectionalButton.Activate);
    }
  }

  /** Pressing a different button on the second layer costs one press per
    step between the two buttons plus the activation. */
  lemma TwoLayerCost(from: DirectionalButton, to: DirectionalButton)
    ensures var p := DirectionalPoint(from);
      var q := DirectionalPoint(to);
      Cost(2, from, to) == Abs(q.row - p.row) + Abs(q.col - p.col) + 1
  {
    var paths := DirectionalPaths(from, to);
    DirectionalPathsArePaths(from, to);
    PathsSpec(DirectionalKeys(), DirectionalPoint(from), DirectionalPoint(to));
    MinCostIsMinimum(1, paths);
    var j :| 0 <= j < |paths| &&
      MinCost(1, paths) == PressCost(1, DirectionalButton.Activate, Presses(paths[j]));
    assert paths[j] in paths;
    PressCostOne(DirectionalButton.Activate, Presses(paths[j]));
  }

  /** When every candidate is the same path, the minimum is its cost. */
  lemma MinCostOfOne(layers: nat, paths: seq<seq<Direction>>, path: seq<Direction>)
    requires layers >= 1 && |paths| >= 1
    requires forall q :: q in paths ==> q == path
    ensures MinCost(layers, paths) == PressCost(layers, DirectionalButton.Activate, Presses(path))
  {
    MinCostIsMinimum(layers, paths);
    var j :| 0 <= j < |paths| &&
      MinCost(layers, paths) == PressCost(layers, DirectionalButton.Activate, Presses(paths[j]));
    assert paths[j] in paths;
  }

  /** When only one path leads from `from` to `to`, one layer more costs
    what pressing that path costs. */
  lemma CostOfOnlyPath(layers: nat, from: DirectionalButton, to: DirectionalButton, path: seq<Direction>)
    requires layers >= 1
    requires forall q :: q in DirectionalPaths(from, to) ==> q == path
    ensures Cost(layers + 1, from, to) == PressCost(layers, DirectionalButton.Activate, Presses(path))
  {
    MinCostOfOne(layers, DirectionalPaths(from, to), path);
  }

  /** From < to > both candidates are two steps right. */
  lemma PathsLeftToRight(left: DirectionalButton, right: DirectionalButton, dr: Direction)
    requires left == Arrow(Left) && right == Arrow(Right) && dr == Right
    ensures forall q :: q in DirectionalPaths(left, right) ==> q == [dr, dr]
  {
    var from := DirectionalPoint(left);
    var goal := DirectionalPoint(right);
    DirectionalPathsArePaths(left, right);
    StraightPaths(DirectionalKeys(), from, goal);
    FlattenRepeat(Some(Right), 2);
    FlattenRepeat(None, 0);
    assert HorizontalRun(from, goal) == [Right, Right];
    assert VerticalRun(from, goal) == [];
    assert [Right, Right] + [] == [Right, Right];
  }

  /** The two-layer cost-table test from < to >: two steps and the press.
    The buttons are parameters so that the proof goes through the lemmas
    above instead of evaluating the table. */
  lemma CostTableTwoLayersToRight(left: DirectionalButton, right: DirectionalButton)
    requires left == Arrow(Left) && right == Arrow(Right)
    ensures Cost(2, left, right) == 3
  {
    TwoLayerCost(left, right);
  }

  /** Pricing a press sequence button by button. */
  lemma PressCostCons(layers: nat, from: DirectionalButton, b: DirectionalButton, steps: seq<DirectionalButton>)
    requires layers >= 1
    ensures PressCost(layers, from, [b] + steps) == Cost(layers, from, b) + PressCost(layers, b, steps)
  {
    assert ([b] + steps)[1..] == steps;
  }

  /** On three layers, < to > costs what right, right, activate costs on
    two. */
  lemma ThreeLayersToRightPresses(a: DirectionalButton, left: DirectionalButton, right: DirectionalButton)
    requires a == DirectionalButton.Activate && left == Arrow(Left) && right == Arrow(Right)
    ensures Cost(3, left, right) == PressCost(2, a, [right] + ([right] + ([a] + [])))
  {
    var dr := right.direction;
    PathsLeftToRight(left, right, dr);
    CostOfOnlyPath(2, left, right, [dr, dr]);
    assert Presses([dr, dr]) == [right] + ([right] + ([a] + []));
  }

  /** On two layers, A to > and > to A cost one step and the press each. */
  lemma TwoLayersRightAndBack(a: DirectionalButton, right: DirectionalButton)
    requires a == DirectionalButton.Activate && right == Arrow(Right)
    ensures Cost(2, a, right) == 2 && Cost(2, right, a) == 2
  {
    TwoLayerCost(a, right);
    TwoLayerCost(right, a);
  }

  /** On two layers, activate after > costs 2. */
  lemma TwoLayersActivatePress(a: DirectionalButton, right: DirectionalButton)
    requires a == DirectionalButton.Activate && right == Arrow(Right)
    ensures PressCost(2, right, [a] + []) == 2
  {
    PressCostCons(2, right, a, []);
    TwoLayersRightAndBack(a, right);
  }

  /** On two layers, > then activate after > costs 1 + 2. */
  lemma TwoLayersRightActivatePresses(a: DirectionalButton, right: DirectionalButton)
    requires a == DirectionalButton.Activate && right == Arrow(Right)
    ensures PressCost(2, right, [right] + ([a] + [])) == 3
  {
    TwoLayersActivatePress(a, right);
    PressCostCons(2, right, right, [a] + []);
    SameButtonCost(2, right);
  }

  /** On two layers, right, right, activate from A costs 2 + 1 + 2. */
  lemma TwoLayersRightRightPresses(a: DirectionalButton, right: DirectionalButton)
    requires a == DirectionalButton.Activate && right == Arrow(Right)
    ensures PressCost(2, a, [right] + ([right] + ([a] + []))) == 5
  {
    TwoLayersRightActivatePresses(a, right);
    PressCostCons(2, a, right, [right] + ([a] + []));
    TwoLayersRightAndBack(a, right);
  }

  /** The three-layer test from < to >: 2 + 1 + 2 presses. */
  lemma CostThreeLayersToRight(a: DirectionalButton, left: DirectionalButton, right: DirectionalButton)
    requires a == DirectionalButton.Activate && left == Arrow(Left) && right == Arrow(Right)
    ensures Cost(3, left, right) == 5
  {
    ThreeLayersToRightPresses(a, left, right);
    TwoLayersRightRightPresses(a, right);
  }

  predicate IsDigit(c: char)
  {
    '0' <= c <= '9'
  }

  predicate AllDigits(s: string)
  {
    forall i :: 0 <= i < |s| ==> IsDigit(s[i])
  }

  /** `take_while(is_ascii_digit)`: the longest prefix of digits. */
  function LeadingDigits(s: string): (r: string)
    ensures r <= s && AllDigits(r)
    ensures |r| < |s| ==> !IsDigit(s[|r|])
  {
    if |s| == 0 || !IsDigit(s[0]) then [] else [s[0]] + LeadingDigits(s[1..])
  }

  /** The value of a digit string, most significant digit first. */
  function DecimalValue(digits: string): nat
    requires AllDigits(digits)
  {
    if |digits| == 0 then 0
    else DecimalValue(digits[..|digits| - 1]) * 10 + (digits[|digits| - 1] as int - '0' as int)
  }

  /** The largest `usize` of a 64-bit target. */
  const UsizeMax: nat := 0xFFFF_FFFF_FFFF_FFFF

  /** `code_number`: the leading digits parsed as a `usize`; no digits, or a
    value above the `usize` range, is a parse error. */
  function CodeNumber(code: string): (r: Result<nat>)
    ensures r.Ok? ==> r.value <= UsizeMax
    ensures |code| == 0 || !IsDigit(code[0]) ==> r.Err?
  {
    var digits := LeadingDigits(code);
    if |digits| == 0 then Err("cannot parse integer from empty string")
    else if DecimalValue(digits) > UsizeMax then Err("number too large to fit in target type")
    else Ok(DecimalValue(digits))
  }

  function DigitChar(d: nat): (c: char)
    requires d < 10
    ensures IsDigit(c) && c as int - '0' as int == d
  {
    ('0' as int + d) as char
  }

  /** The shortest decimal writing of `n`. */
  function Decimal(n: nat): (r: string)
    ensures |r| >= 1 && AllDigits(r)
    decreases n
  {
    if n < 10 then [DigitChar(n)] else Decimal(n / 10) + [DigitChar(n % 10)]
  }

  /** Reading a decimal writing gives the number back. */
  lemma {:induction false} DecimalValueOfDecimal(n: nat)
    ensures DecimalValue(Decimal(n)) == n
    decreases n
  {
    var r := Decimal(n);
    if n >= 10 {
      DecimalValueOfDecimal(n / 10);
      assert r[..|r| - 1] == Decimal(n / 10);
    } else {
      assert r[..|r| - 1] == [];
    }
  }

  /** Leading zeros do not change the value. */
  lemma {:induction false} LeadingZeroValue(digits: string)
    requires AllDigits(digits)
    ensures DecimalValue("0" + digits) == DecimalValue(digits)
    decreases |digits|
  {
    if |digits| > 0 {
      var n := |digits| - 1;
      assert ("0" + digits)[..n + 1] == "0" + digits[..n];
      LeadingZeroValue(digits[..n]);
    }
  }

  /** The leading digits of digits followed by a non-digit are those
    digits. */
  lemma {:induction false} LeadingDigitsOfConcat(digits: string, rest: string)
    requires AllDigits(digits)
    requires |rest| == 0 || !IsDigit(rest[0])
    ensures LeadingDigits(digits + rest) == digits
    decreases |digits|
  {
    if |digits| > 0 {
      assert (digits + rest)[1..] == digits[1..] + rest;
      LeadingDigitsOfConcat(digits[1..], rest);
    } else {
      assert digits + rest == rest;
    }
  }

  /** A number in range, written in decimal in front of a non-digit, is read
    back by `code_number`, leading zeros or not. */
  lemma CodeNumberRoundTrip(zeros: nat, n: nat, rest: string)
    requires n <= UsizeMax
    requires |rest| == 0 || !IsDigit(rest[0])
    ensures CodeNumber(seq(zeros, _ => '0') + Decimal(n) + rest) == Ok(n)
  {
    var digits := seq(zeros, _ => '0') + Decimal(n);
    assert AllDigits(digits);
    assert seq(zeros, _ => '0') + Decimal(n) + rest == digits + rest;
    LeadingDigitsOfConcat(digits, rest);
    ZerosValue(zeros, Decimal(n));
    DecimalValueOfDecimal(n);
  }

  lemma {:induction false} ZerosValue(zeros: nat, digits: string)
    requires AllDigits(digits)
    ensures AllDigits(seq(zeros, _ => '0') + digits)
    ensures DecimalValue(seq(zeros, _ => '0') + digits) == DecimalValue(digits)
    decreases zeros
  {
    if zeros == 0 {
      assert seq(zeros, _ => '0') + digits == digits;
    } else {
      var fewer := seq(zeros - 1, _ => '0') + digits;
      ZerosValue(zeros - 1, digits);
      assert seq(zeros, _ => '0') + digits == "0" + fewer;
      LeadingZeroValue(fewer);
    }
  }

  /** An empty code or one that starts with a letter has no number. */
  lemma CodeNumberNoDigits(code: string)
    requires |code| == 0 || !IsDigit(code[0])
    ensures CodeNumber(code).Err?
  {
  }

  /** The code test: "029A" is code number 29. */
  lemma CodeNumberExample()
    ensures CodeNumber("029A") == Ok(29)
  {
    assert Decimal(29) == "29";
    CodeNumberRoundTrip(1, 29, "A");
    assert seq(1, _ => '0') + Decimal(29) + "A" == "029A";
  }

  /** `code_complexity`: the presses the user makes for a door code, through
    `layers` directional keypads. The efficient way prices the code with the
    cost table, which has no layer 0 to unwrap; the baseline runs the brute
    force from the numeric keypad's A. */
  function Complexity(code: string, layers: nat, efficient: bool): (r: Result<nat>)
    ensures r.Ok? ==> ParseNumeric(code).Ok?
    ensures efficient && layers == 0 ==> r.Err?
  {
    if efficient then EfficientComplexity(code, layers) else BaselineComplexity(code, layers)
  }

  /** `dynamic_programming_solution`. */
  function EfficientComplexity(code: string, layers: nat): Result<nat>
  {
    var targets := ParseNumeric(code);
    if layers == 0 then Err("called `Option::unwrap()` on a `None` value")
    else if targets.Err? then Err("called `Result::unwrap()` on an `Err` value")
    else NumericCost(layers, Point(3, 2), targets.value)
  }

  /** The brute force of `code_complexity`. */
  function BaselineComplexity(code: string, layers: nat): Result<nat>
  {
    var targets := ParseNumeric(code);
    if targets.Err? then Err("Could not parse code to numeric buttons")
    else
      var steps := NumericSteps(layers, Point(3, 2), targets.value);
      if steps.Err? then Err(steps.error) else Ok(|steps.value|)
  }

  function Times(a: nat, b: nat): nat
  {
    a * b
  }

  /** One code's term of `complexity_sum`: its complexity times its number;
    the complexity is computed first. */
  function ComplexityTerm(code: string, layers: nat, efficient: bool): Result<nat>
  {
    var complexity := Complexity(code, layers, efficient);
    if complexity.Err? then complexity
    else
      var n := CodeNumber(code);
      if n.Err? then Err("Can parse code") else Ok(Times(complexity.value, n.value))
  }

  /** A sum of terms that may fail: the first failing term decides the
    error. */
  function SumTerms(terms: seq<Result<nat>>): Result<nat>
    decreases |terms|
  {
    if |terms| == 0 then Ok(0)
    else if terms[0].Err? then terms[0]
    else
      var rest := SumTerms(terms[1..]);
      if rest.Err? then rest else Ok(terms[0].value + rest.value)
  }

  /** The terms of `complexity_sum`, one per code, in order. */
  function Terms(codes: seq<string>, layers: nat, efficient: bool): (r: seq<Result<nat>>)
    ensures |r| == |codes|
    decreases |codes|
  {
    if |codes| == 0 then [] else [ComplexityTerm(codes[0], layers, efficient)] + Terms(codes[1..], layers, efficient)
  }

  /** Each code has its term. */
  lemma {:induction false} TermsAt(codes: seq<string>, layers: nat, efficient: bool, i: nat)
    requires i < |codes|
    ensures Terms(codes, layers, efficient)[i] == ComplexityTerm(codes[i], layers, efficient)
    decreases i
  {
    if i > 0 {
      TermsAt(codes[1..], layers, efficient, i - 1);
    }
  }

  /** `complexity_sum`: the terms summed over the codes. */
  function TotalComplexity(codes: seq<string>, layers: nat, efficient: bool): Result<nat>
  {
    SumTerms(Terms(codes, layers, efficient))
  }

  /** Two lists of terms that succeed together, with the same values, sum
    alike. */
  lemma {:induction false} SumTermsAgree(a: seq<Result<nat>>, b: seq<Result<nat>>)
    requires |a| == |b|
    requires forall i :: 0 <= i < |a| ==> (a[i].Ok? <==> b[i].Ok?) && (a[i].Ok? ==> a[i].value == b[i].value)
    ensures SumTerms(a).Ok? <==> SumTerms(b).Ok?
    ensures SumTerms(a).Ok? ==> SumTerms(a).value == SumTerms(b).value
    decreases |a|
  {
    if |a| > 0 {
      SumTermsAgree(a[1..], b[1..]);
    }
  }

  /** The property test of the two methods: on at least one directional
    keypad, the cost table and the brute force fail on the same codes and
    otherwise count the same presses. */
  lemma ComplexityAgrees(code: string, layers: nat)
    requires layers >= 1
    ensures Complexity(code, layers, true).Ok? <==> Complexity(code, layers, false).Ok?
    ensures Complexity(code, layers, true).Ok? ==>
      Complexity(code, layers, true).value == Complexity(code, layers, false).value
  {
    var targets := ParseNumeric(code);
    if targets.Ok? {
      NumericStepsCost(layers, Point(3, 2), targets.value);
    }
  }

  /** Summed over several codes the two methods agree as well. */
  lemma TotalComplexityAgrees(codes: seq<string>, layers: nat)
    requires layers >= 1
    ensures TotalComplexity(codes, layers, true).Ok? <==> TotalComplexity(codes, layers, false).Ok?
    ensures TotalComplexity(codes, layers, true).Ok? ==>
      TotalComplexity(codes, layers, true).value == TotalComplexity(codes, layers, false).value
  {
    var efficient := Terms(codes, layers, true);
    var baseline := Terms(codes, layers, false);
    forall i | 0 <= i < |codes|
      ensures (efficient[i].Ok? <==> baseline[i].Ok?) && (efficient[i].Ok? ==> efficient[i].value == baseline[i].value)
    {
      TermsAt(codes, layers, true, i);
      TermsAt(codes, layers, false, i);
      ComplexityAgrees(codes[i], layers);
    }
    SumTermsAgree(efficient, baseline);
  }

  /** On the numeric keypad the pricing never fails for digits and A. */
  lemma {:induction false} NumericCostDefined(layers: nat, from: NumericButton, targets: seq<NumericButton>)
    requires layers >= 1 && IsNumericKey(from)
    requires forall i :: 0 <= i < |targets| ==> IsNumericKey(targets[i])
    ensures NumericCost(layers, NumericPoint(from), targets).Ok?
    decreases |targets|
  {
    if |targets| > 0 {
      NumericPathsExist(from, targets[0]);
      NumericCostDefined(layers, targets[0], targets[1..]);
    }
  }

  /** Every code of digits and A has a complexity, on any positive number of
    keypads, and only those codes have one. */
  lemma ComplexityDefined(code: string, layers: nat)
    requires layers >= 1
    ensures Complexity(code, layers, true).Ok? <==> ParseNumeric(code).Ok?
  {
    var targets := ParseNumeric(code);
    if targets.Ok? {
      forall i | 0 <= i < |targets.value|
        ensures IsNumericKey(targets.value[i])
      {
      }
      NumericCostDefined(layers, NumericButton.Activate, targets.value);
    }
  }

  /** The test "A": pressing A alone costs one press on any number of
    keypads, in both methods. */
  lemma ActivateCodeComplexity(code: string, layers: nat)
    requires code == "A" && layers >= 1
    ensures Complexity(code, layers, true) == Ok(1) && Complexity(code, layers, false) == Ok(1)
  {
    var a := NumericButton.Activate;
    assert code[1..] == [];
    assert ParseNumeric(code[1..]) == Ok([]);
    assert ParseNumeric(code) == Ok([a] + []);
    assert [a] + [] == [a];
    var at := NumericPoint(a);
    NumericPathsExist(a, a);
    SamePointPaths(NumericKeys(), at);
    var paths := Paths(NumericKeys(), at, at).value;
    MinCostOfOne(layers, paths, []);
    assert Presses([]) == [DirectionalButton.Activate];
    SameButtonCost(layers, DirectionalButton.Activate);
    assert PressCost(layers, DirectionalButton.Activate, [DirectionalButton.Activate])
      == Cost(layers, DirectionalButton.Activate, DirectionalButton.Activate);
    assert NumericCost(layers, at, [a][1..]) == Ok(0);
    assert NumericCost(layers, at, [a]) == Ok(1);
    ComplexityAgrees(code, layers);
  }
}
