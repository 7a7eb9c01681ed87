/** The dynamic programming of rust/21/src/main.rs: the cost table of
  `precompute_solutions`, filled layer by layer with one directional keypad
  whose arm is moved over each start button, and `find_numeric_keypad_result`,
  which prices a door code with a table. Everything is proved against
  `Cost` and `NumericCost` of `KeypadCosts`. */
module KeypadSolutions {
  import opened Wrappers
  import opened KeypadUtils
  import opened Keypads
  import opened PathTable
  import opened KeypadCosts
  import opened KeypadRobots

  /** `SolutionKey`: a move of an arm from one directional button to another. */
  datatype SolutionKey = SolutionKey(from: DirectionalButton, to: DirectionalButton)

  /** `Solutions`: the presses each move costs. */
  type Solutions = map<SolutionKey, nat>

  /** The table holds the cost of the move `k` on `layers` directional
    keypads. */
  ghost predicate HasCost(table: Solutions, layers: nat, k: SolutionKey)
  {
    layers >= 1 && k in table && table[k] == Cost(layers, k.from, k.to)
  }

  /** The table holds exactly the costs of `layers` directional keypads. */
  ghost predicate IsCostTable(table: Solutions, layers: nat)
  {
    layers >= 1 && forall k: SolutionKey {:trigger HasCost(table, layers, k)} :: HasCost(table, layers, k)
  }

  const MissingKey := "no entry found for key"

  /** Pricing `steps` with a table, the arm starting over `from`: the sum of
    the table's entries along the way; indexing a missing key panics. */
  function TablePressCost(table: Solutions, from: DirectionalButton, steps: seq<DirectionalButton>): Result<nat>
    decreases |steps|
  {
    if |steps| == 0 then Ok(0)
    else if SolutionKey(from, steps[0]) !in table then Err(MissingKey)
    else AddTo(table[SolutionKey(from, steps[0])], TablePressCost(table, steps[0], steps[1..]))
  }

  /** With the cost table of `layers` keypads, pricing by table is `PressCost`. */
  lemma {:induction false} TablePressCostIsPressCost(table: Solutions, layers: nat, from: DirectionalButton,
                                                     steps: seq<DirectionalButton>)
    requires IsCostTable(table, layers)
    ensures TablePressCost(table, from, steps) == Ok(PressCost(layers, from, steps))
    decreases |steps|
  {
    if |steps| > 0 {
      TablePressCostIsPressCost(table, layers, steps[0], steps[1..]);
      var key := SolutionKey(from, steps[0]);
      assert HasCost(table, layers, key);
      TablePressCostCons(table, from, steps, Cost(layers, from, steps[0]), PressCost(layers, steps[0], steps[1..]));
      assert steps == [steps[0]] + steps[1..];
      PressCostCons(layers, from, steps[0], steps[1..]);
    }
  }

  /** One press priced by table, then the rest. */
  lemma TablePressCostCons(table: Solutions, from: DirectionalButton, steps: seq<DirectionalButton>, cost: nat, rest: nat)
    requires |steps| > 0 && SolutionKey(from, steps[0]) in table && table[SolutionKey(from, steps[0])] == cost
    requires TablePressCost(table, steps[0], steps[1..]) == Ok(rest)
    ensures TablePressCost(table, from, steps) == Ok(cost + rest)
  {
  }

  /** The least of a non-empty list of numbers (`Iterator::min`). */
  function Minimum(xs: seq<nat>): (r: nat)
    requires |xs| >= 1
    ensures r in xs
    ensures forall i :: 0 <= i < |xs| ==> r <= xs[i]
    decreases |xs|
  {
    if |xs| == 1 then xs[0]
    else
      var before := Minimum(xs[..|xs| - 1]);
      assert forall i :: 0 <= i < |xs| - 1 ==> xs[..|xs| - 1][i] == xs[i];
      if xs[|xs| - 1] < before then xs[|xs| - 1] else before
  }

  /** The table's price of each path, with its activation, in order; the
    first path with a missing key fails. */
  function TablePathCosts(table: Solutions, paths: seq<seq<Direction>>): Result<seq<nat>>
    decreases |paths|
  {
    if |paths| == 0 then Ok([])
    else
      var before := TablePathCosts(table, paths[..|paths| - 1]);
      if before.Err? then before
      else
        var cost := TablePressCost(table, DirectionalButton.Activate, Presses(paths[|paths| - 1]));
        if cost.Err? then Err(cost.error) else Ok(before.value + [cost.value])
  }

  /** Once a prefix of the paths fails, so do all of them. */
  lemma {:induction false} TablePathCostsPrefixErr(table: Solutions, paths: seq<seq<Direction>>, k: nat)
    requires k <= |paths| && TablePathCosts(table, paths[..k]).Err?
    ensures TablePathCosts(table, paths) == TablePathCosts(table, paths[..k])
    decreases |paths| - k
  {
    if k < |paths| {
      assert paths[..k + 1][..k] == paths[..k];
      TablePathCostsPrefixErr(table, paths, k + 1);
    } else {
      assert paths[..k] == paths;
    }
  }

  /** With a cost table, each path is priced by `PressCost`, and the least
    price is `MinCost`. */
  lemma {:induction false} TablePathCostsAreMinCost(table: Solutions, layers: nat, paths: seq<seq<Direction>>)
    requires IsCostTable(table, layers)
    ensures TablePathCosts(table, paths).Ok? && |TablePathCosts(table, paths).value| == |paths|
    ensures |paths| >= 1 ==> Minimum(TablePathCosts(table, paths).value) == MinCost(layers, paths)
    decreases |paths|
  {
    if |paths| > 0 {
      var n := |paths| - 1;
      var prefix := paths[..n];
      TablePathCostsAreMinCost(table, layers, prefix);
      var steps := Presses(paths[n]);
      var cost := PressCost(layers, DirectionalButton.Activate, steps);
      var before := TablePathCosts(table, prefix).value;
      assert TablePathCosts(table, paths) == Ok(before + [cost]) by {
        TablePressCostIsPressCost(table, layers, DirectionalButton.Activate, steps);
      }
      assert MinCost(layers, paths) == if n == 0 then cost else if cost < MinCost(layers, prefix) then cost else MinCost(layers, prefix) by {
        MinCostSnoc(layers, paths, n);
        assert paths[..n + 1] == paths;
      }
      if n > 0 {
        MinimumSnoc(before, cost);
      }
    }
  }

  /** The least of a sequence with one more element. */
  lemma MinimumSnoc(xs: seq<nat>, x: nat)
    requires |xs| >= 1
    ensures Minimum(xs + [x]) == if x < Minimum(xs) then x else Minimum(xs)
  {
    var ys := xs + [x];
    assert ys[..|ys| - 1] == xs && ys[|ys| - 1] == x;
  }

  /** The least table price of the candidate paths `paths_to` returned; a
    failed lookup of the paths, a missing key or no path at all panics. */
  function PathsPrice(table: Solutions, paths: Result<seq<seq<Direction>>>): Result<nat>
  {
    if paths.Err? then Err(paths.error)
    else
      var costs := TablePathCosts(table, paths.value);
      if costs.Err? then Err(costs.error)
      else if |costs.value| == 0 then Err("Finds a minimum number of presses")
      else Ok(Minimum(costs.value))
  }

  /** With a cost table, the least price of non-empty paths is `MinCost`. */
  lemma PathsPriceIsMinCost(table: Solutions, layers: nat, paths: Result<seq<seq<Direction>>>)
    requires IsCostTable(table, layers)
    ensures PathsPrice(table, paths) ==
      if paths.Err? then Err(paths.error)
      else if |paths.value| == 0 then Err("Finds a minimum number of presses")
      else Ok(MinCost(layers, paths.value))
  {
    if paths.Ok? {
      TablePathCostsAreMinCost(table, layers, paths.value);
    }
  }

  /** One target of `find_numeric_keypad_result`, the numeric arm over `at`:
    the cheapest candidate path by table. */
  function TargetCost(table: Solutions, at: Point, target: NumericButton): (r: Result<nat>)
    ensures r.Ok? ==> IsNumericKey(target)
  {
    if !IsNumericKey(target) then Err("called `Option::unwrap()` on a `None` value")
    else PathsPrice(table, Paths(NumericKeys(), at, NumericPoint(target)))
  }

  /** `find_numeric_keypad_result` after parsing: the targets in order, the
    arm moving to each. */
  function TableNumericCost(table: Solutions, at: Point, targets: seq<NumericButton>): Result<nat>
    decreases |targets|
  {
    if |targets| == 0 then Ok(0)
    else if !IsNumericKey(targets[0]) then Err("called `Option::unwrap()` on a `None` value")
    else
      var goal := NumericPoint(targets[0]);
      TableStepCost(table, Paths(NumericKeys(), at, goal), TableNumericCost(table, goal, targets[1..]))
  }

  /** One target priced by table: the least price of its candidate paths,
    then the rest. */
  function TableStepCost(table: Solutions, paths: Result<seq<seq<Direction>>>, rest: Result<nat>): Result<nat>
  {
    var price := PathsPrice(table, paths);
    if price.Err? then price else AddTo(price.value, rest)
  }

  /** `find_numeric_keypad_result`: a code that does not parse panics. */
  function TableCodeCost(table: Solutions, code: string): Result<nat>
  {
    var targets := ParseNumeric(code);
    if targets.Err? then Err("called `Result::unwrap()` on an `Err` value")
    else TableNumericCost(table, Point(3, 2), targets.value)
  }

  /** With a cost table, one target is priced as `NumericCost` prices it. */
  lemma TableStepCostIsNumericStepCost(table: Solutions, layers: nat, paths: Result<seq<seq<Direction>>>,
                                       rest: Result<nat>)
    requires IsCostTable(table, layers)
    ensures TableStepCost(table, paths, rest) == NumericStepCost(layers, paths, rest)
  {
    PathsPriceIsMinCost(table, layers, paths);
  }

  /** With the cost table of `layers` keypads, pricing a code by table is
    `NumericCost`. */
  lemma {:induction false} TableNumericCostIsNumericCost(table: Solutions, layers: nat, at: Point,
                                                         targets: seq<NumericButton>)
    requires IsCostTable(table, layers)
    ensures TableNumericCost(table, at, targets) == NumericCost(layers, at, targets)
    decreases |targets|
  {
    if |targets| > 0 && IsNumericKey(targets[0]) {
      var goal := NumericPoint(targets[0]);
      TableNumericCostIsNumericCost(table, layers, goal, targets[1..]);
      TableStepCostIsNumericStepCost(table, layers, Paths(NumericKeys(), at, goal), NumericCost(layers, goal, targets[1..]));
    }
  }

  /** A table of `layers` keypads prices every code as `EfficientComplexity`. */
  lemma TableCodeCostIsComplexity(table: Solutions, layers: nat, code: string)
    requires IsCostTable(table, layers)
    ensures TableCodeCost(table, code) == EfficientComplexity(code, layers)
  {
    var targets := ParseNumeric(code);
    if targets.Ok? {
      TableNumericCostIsNumericCost(table, layers, Point(3, 2), targets.value);
    }
  }

  /** The `for target in steps` loop pricing one path with the table: the
    arm of the keypad below starts over A, and the path ends with A. */
  method PathCost(table: Solutions, path: seq<Direction>) returns (r: Result<nat>)
    ensures r == TablePressCost(table, DirectionalButton.Activate, Presses(path))
  {
    var steps := Presses(path);
    var total: nat := 0;
    var current := DirectionalButton.Activate;
    assert steps[0..] == steps;
    for i := 0 to |steps|
      invariant TablePressCost(table, DirectionalButton.Activate, steps) ==
        AddTo(total, TablePressCost(table, current, steps[i..]))
    {
      assert steps[i..][1..] == steps[i + 1..];
      var key := SolutionKey(current, steps[i]);
      if key !in table {
        return Err(MissingKey);
      }
      total := total + table[key];
      current := steps[i];
    }
    r := Ok(total);
  }

  /** The `for path in keypad.paths_to(&to)` loop of `precompute_solutions`:
    the running minimum of the paths' prices with the previous layer's table,
    or one press each when there is none yet. None only when there is no
    path. */
  method MinPathCost(previous: Option<Solutions>, ghost layers: nat, paths: seq<seq<Direction>>)
    returns (r: Option<nat>)
    requires previous.None? <==> layers == 0
    requires previous.Some? ==> IsCostTable(previous.value, layers)
    ensures |paths| == 0 ==> r.None?
    ensures |paths| > 0 ==> r == Some(if layers == 0 then 1 else MinCost(layers, paths))
  {
    r := None;
    for j := 0 to |paths|
      invariant j == 0 ==> r.None?
      invariant j > 0 ==> r == Some(if layers == 0 then 1 else MinCost(layers, paths[..j]))
    {
      if previous.None? {
        r := Some(1);
      } else {
        r := NextMinimum(previous.value, layers, paths, j, r);
      }
    }
    assert paths[..|paths|] == paths;
  }

  /** One pass of the loop over the paths in `precompute_solutions`
    (rust/21/src/main.rs:152-173): the price of path `j` by table, kept when
    below the running minimum. */
  method NextMinimum(table: Solutions, ghost layers: nat, paths: seq<seq<Direction>>, j: nat, r: Option<nat>)
    returns (next: Option<nat>)
    requires IsCostTable(table, layers) && j < |paths|
    requires j == 0 ==> r.None?
    requires j > 0 ==> r == Some(MinCost(layers, paths[..j]))
    ensures next == Some(MinCost(layers, paths[..j + 1]))
  {
    var total := PathCost(table, paths[j]);
    TablePressCostIsPressCost(table, layers, DirectionalButton.Activate, Presses(paths[j]));
    MinCostSnoc(layers, paths, j);
    var bound := if r.Some? then r.value else total.value;
    next := Some(if total.value < bound then total.value else bound);
  }

  /** One entry of `precompute_solutions`: the arm of `keypad` is moved over
    `from`, and the candidate paths to `to` are priced. The result is the
    cost of one more layer. */
  method ComputeEntry(keypad: Keypad<DirectionalButton>, previous: Option<Solutions>, ghost layers: nat,
                      from: DirectionalButton, to: DirectionalButton)
    returns (cost: nat)
    requires keypad.pointToButton == DirectionalLayout() && keypad.buttonToPoint == DirectionalPoints()
    requires previous.None? <==> layers == 0
    requires previous.Some? ==> IsCostTable(previous.value, layers)
    modifies keypad
    ensures keypad.pointToButton == DirectionalLayout() && keypad.buttonToPoint == DirectionalPoints()
    ensures cost == Cost(layers + 1, from, to)
  {
    DirectionalPointsLookup();
    var _ := keypad.MoveTo(from);
    var paths := keypad.PathsTo(to);
    DirectionalPathsArePaths(from, to);
    assert paths == Ok(DirectionalPaths(from, to));
    var minCosts := MinPathCost(previous, layers, paths.value);
    cost := minCosts.value;
  }

  /** The table entries are the costs of `layers` keypads. */
  ghost predicate CostsOf(next: Solutions, layers: nat)
  {
    layers >= 1 && forall k {:trigger HasCost(next, layers, k)} :: k in next ==> HasCost(next, layers, k)
  }

  /** One `solutions.insert` of `precompute_solutions`: the entry of the
    move from `from` to `to` is computed and entered. */
  method AddEntry(keypad: Keypad<DirectionalButton>, previous: Option<Solutions>, ghost layers: nat,
                  from: DirectionalButton, to: DirectionalButton, next: Solutions)
    returns (r: Solutions)
    requires keypad.pointToButton == DirectionalLayout() && keypad.buttonToPoint == DirectionalPoints()
    requires previous.None? <==> layers == 0
    requires previous.Some? ==> IsCostTable(previous.value, layers)
    requires CostsOf(next, layers + 1)
    modifies keypad
    ensures keypad.pointToButton == DirectionalLayout() && keypad.buttonToPoint == DirectionalPoints()
    ensures CostsOf(r, layers + 1)
    ensures r.Keys == next.Keys + {SolutionKey(from, to)}
  {
    var cost := ComputeEntry(keypad, previous, layers, from, to);
    var key := SolutionKey(from, to);
    r := next[key := cost];
    forall k | k in r
      ensures HasCost(r, layers + 1, k)
    {
      if k != key {
        assert HasCost(next, layers + 1, k);
      }
    }
  }

  /** The `for to in all_buttons()` loop of `precompute_solutions`: the row
    of `from` is added to the table. */
  method ComputeRow(keypad: Keypad<DirectionalButton>, previous: Option<Solutions>, ghost layers: nat,
                    from: DirectionalButton, next: Solutions)
    returns (r: Solutions)
    requires keypad.pointToButton == DirectionalLayout() && keypad.buttonToPoint == DirectionalPoints()
    requires previous.None? <==> layers == 0
    requires previous.Some? ==> IsCostTable(previous.value, layers)
    requires CostsOf(next, layers + 1)
    modifies keypad
    ensures keypad.pointToButton == DirectionalLayout() && keypad.buttonToPoint == DirectionalPoints()
    ensures CostsOf(r, layers + 1)
    ensures next.Keys <= r.Keys
    ensures forall to :: SolutionKey(from, to) in r
  {
    var all := AllButtons();
    r := next;
    for b := 0 to |all|
      invariant keypad.pointToButton == DirectionalLayout() && keypad.buttonToPoint == DirectionalPoints()
      invariant CostsOf(r, layers + 1)
      invariant next.Keys <= r.Keys
      invariant forall j :: 0 <= j < b ==> SolutionKey(from, all[j]) in r
    {
      r := AddEntry(keypad, previous, layers, from, all[b], r);
    }
    forall to
      ensures SolutionKey(from, to) in r
    {
      AllButtonsComplete(to);
    }
  }

  /** One layer of `precompute_solutions`: every pair of buttons, from the
    previous layer's table. */
  method ComputeLayer(keypad: Keypad<DirectionalButton>, previous: Option<Solutions>, ghost layers: nat)
    returns (r: Solutions)
    requires keypad.pointToButton == DirectionalLayout() && keypad.buttonToPoint == DirectionalPoints()
    requires previous.None? <==> layers == 0
    requires previous.Some? ==> IsCostTable(previous.value, layers)
    modifies keypad
    ensures keypad.pointToButton == DirectionalLayout() && keypad.buttonToPoint == DirectionalPoints()
    ensures IsCostTable(r, layers + 1)
  {
    var all := AllButtons();
    r := map[];
    for a := 0 to |all|
      invariant keypad.pointToButton == DirectionalLayout() && keypad.buttonToPoint == DirectionalPoints()
      invariant CostsOf(r, layers + 1)
      invariant forall i, to :: 0 <= i < a ==> SolutionKey(all[i], to) in r
    {
      r := ComputeRow(keypad, previous, layers, all[a], r);
    }
    forall k: SolutionKey
      ensures k in r
    {
      AllButtonsComplete(k.from);
      var i :| 0 <= i < |all| && all[i] == k.from;
      assert SolutionKey(all[i], k.to) in r;
    }
  }

  /** `precompute_solutions`: the table of one keypad, then of each further
    layer from the one before. Zero layers leave no table to unwrap. */
  method PrecomputeSolutions(layers: nat) returns (r: Result<Solutions>)
    ensures layers == 0 ==> r == Err("called `Option::unwrap()` on a `None` value")
    ensures layers > 0 ==> r.Ok? && IsCostTable(r.value, layers)
  {
    var solutions: Option<Solutions> := None;
    var keypad := DirectionalKeypad();
    DirectionalPointsUnique(keypad.buttonToPoint);
    for l := 0 to layers
      invariant keypad.pointToButton == DirectionalLayout() && keypad.buttonToPoint == DirectionalPoints()
      invariant solutions.None? <==> l == 0
      invariant solutions.Some? ==> IsCostTable(solutions.value, l)
    {
      var next := ComputeLayer(keypad, solutions, l);
      solutions := Some(next);
    }
    if solutions.None? {
      return Err("called `Option::unwrap()` on a `None` value");
    }
    r := Ok(solutions.value);
  }

  /** The `for target in targets` body of `find_numeric_keypad_result`: the
    arm's candidate paths to `target` are priced, the least price is taken
    and the arm moves to `target`. */
  method PriceTarget(pad: Keypad<NumericButton>, table: Solutions, target: NumericButton)
    returns (r: Result<nat>)
    modifies pad
    ensures pad.pointToButton == old(pad.pointToButton) && pad.buttonToPoint == old(pad.buttonToPoint)
    ensures target !in pad.buttonToPoint ==> r == Err("called `Option::unwrap()` on a `None` value")
    ensures target in pad.buttonToPoint ==>
      r == PathsPrice(table, Paths(pad.pointToButton.Keys, old(pad.current), pad.buttonToPoint[target]))
    ensures r.Ok? ==> target in pad.buttonToPoint && pad.current == pad.buttonToPoint[target]
  {
    var paths := pad.PathsTo(target);
    if paths.Err? {
      return Err(paths.error);
    }
    var ps := paths.value;
    var results: seq<nat> := [];
    for j := 0 to |ps|
      invariant unchanged(pad)
      invariant TablePathCosts(table, ps[..j]) == Ok(results)
    {
      assert ps[..j + 1][..j] == ps[..j];
      var sum := PathCost(table, ps[j]);
      if sum.Err? {
        TablePathCostsPrefixErr(table, ps, j + 1);
        return Err(sum.error);
      }
      results := results + [sum.value];
    }
    assert ps[..|ps|] == ps;
    if |results| == 0 {
      return Err("Finds a minimum number of presses");
    }
    var movingCosts := Minimum(results);
    var _ := pad.MoveTo(target);
    r := Ok(movingCosts);
  }

  /** A table price split into its first target and the rest. */
  lemma TableNumericCons(table: Solutions, at: Point, targets: seq<NumericButton>)
    requires |targets| > 0
    ensures var cost := TargetCost(table, at, targets[0]);
      TableNumericCost(table, at, targets) ==
      if cost.Err? then cost else AddTo(cost.value, TableNumericCost(table, NumericPoint(targets[0]), targets[1..]))
  {
  }

  /** Adding a first price that may fail to a running total. */
  lemma AddToStep(total: nat, cost: Result<nat>, rest: Result<nat>, whole: Result<nat>)
    requires whole == if cost.Err? then cost else AddTo(cost.value, rest)
    ensures cost.Err? ==> AddTo(total, whole) == cost
    ensures cost.Ok? ==> AddTo(total, whole) == AddTo(total + cost.value, rest)
  {
    if cost.Ok? {
      AddToAssoc(total, cost.value, rest);
    }
  }

  /** `inverse` takes each key of the numeric keypad to its point. */
  ghost predicate IsNumericInverse(inverse: map<NumericButton, Point>)
  {
    (forall b :: b in inverse <==> IsNumericKey(b)) &&
    (forall b :: b in inverse ==> inverse[b] == NumericPoint(b))
  }

  /** One pass of the `for target in targets` loop of
    `find_numeric_keypad_result`: the next target is priced from where the
    arm rests, and the arm moves there. */
  method PriceNext(numeric: Keypad<NumericButton>, table: Solutions, targets: seq<NumericButton>, i: nat,
                   total: nat, ghost inverse: map<NumericButton, Point>)
    returns (cost: Result<nat>)
    requires i < |targets|
    requires numeric.pointToButton == NumericLayout() && numeric.buttonToPoint == inverse
    requires IsNumericInverse(inverse)
    modifies numeric
    ensures numeric.pointToButton == NumericLayout() && numeric.buttonToPoint == inverse
    ensures cost.Err? ==> AddTo(total, TableNumericCost(table, old(numeric.current), targets[i..])) == cost
    ensures cost.Ok? ==>
      AddTo(total, TableNumericCost(table, old(numeric.current), targets[i..])) ==
      AddTo(total + cost.value, TableNumericCost(table, numeric.current, targets[i + 1..]))
  {
    ghost var here := numeric.current;
    cost := PriceTarget(numeric, table, targets[i]);
    assert numeric.pointToButton.Keys == NumericKeys();
    assert cost == TargetCost(table, here, targets[i]);
    var ts := targets[i..];
    assert ts[0] == targets[i] && ts[1..] == targets[i + 1..];
    TableNumericCons(table, here, ts);
    AddToStep(total, cost, if cost.Ok? then TableNumericCost(table, numeric.current, ts[1..]) else Ok(0),
              TableNumericCost(table, here, ts));
  }

  /** `find_numeric_keypad_result`: the code is parsed, and each target is
    priced from where the numeric arm rests, starting over A. */
  method FindNumericKeypadResult(code: string, table: Solutions) returns (r: Result<nat>)
    ensures r == TableCodeCost(table, code)
  {
    var parsed := ParseNumeric(code);
    if parsed.Err? {
      return Err("called `Result::unwrap()` on an `Err` value");
    }
    r := PriceTargets(parsed.value, table);
  }

  /** The loop of `find_numeric_keypad_result` over the parsed targets. */
  method PriceTargets(targets: seq<NumericButton>, table: Solutions) returns (r: Result<nat>)
    ensures r == TableNumericCost(table, Point(3, 2), targets)
  {
    var numeric := NumericalKeypad();
    ghost var inverse := numeric.buttonToPoint;
    NumericInverse(inverse);
    assert IsNumericInverse(inverse);
    var totalSum: nat := 0;
    assert targets[0..] == targets;
    for i := 0 to |targets|
      invariant numeric.pointToButton == NumericLayout() && numeric.buttonToPoint == inverse
      invariant TableNumericCost(table, Point(3, 2), targets) ==
        AddTo(totalSum, TableNumericCost(table, numeric.current, targets[i..]))
    {
      var cost := PriceNext(numeric, table, targets, i, totalSum, inverse);
      if cost.Err? {
        return Err(cost.error);
      }
      totalSum := totalSum + cost.value;
    }
    assert TableNumericCost(table, numeric.current, targets[|targets|..]) == Ok(0);
    r := Ok(totalSum);
  }

  /** `dynamic_programming_solution`: the table, then the code priced with
    it; exactly `EfficientComplexity`. */
  method DynamicProgrammingSolution(code: string, layers: nat) returns (r: Result<nat>)
    ensures r == EfficientComplexity(code, layers)
  {
    var solutions := PrecomputeSolutions(layers);
    if solutions.Err? {
      return Err(solutions.error);
    }
    r := FindNumericKeypadResult(code, solutions.value);
    TableCodeCostIsComplexity(solutions.value, layers, code);
  }
}
