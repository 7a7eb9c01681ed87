# Advent of Code 2024 puzzle solvers, modelled and proved in Dafny

This project models the core of a collection of solutions to the Advent of
Code 2024 puzzles, some written in Rust and some in Java, and proves
properties of them. Each puzzle is independent of the others. Every Dafny
module models one source file or one cluster of closely related files:

- **Location lists** (rust/1), `LocationLists`: the distance between the two
  sorted id lists and the similarity score. Sorting is an in-place insertion
  sort on an array.
- **Reactor reports** (rust/2), `Reports`: the safety check, the check with
  one level ignored, and the "safe after removing one level" search.
- **Warehouse robot** (rust/15), `Warehouses`, `WarehouseSimulation` and
  `WarehousePushes`: the grid of fields and the doubled-width warehouse, the
  point walk, the GPS score, the recursive feasibility check and the recursive commit that
  writes the grid in place. `WarehousePushes` proves that a vertical push of
  wide boxes moves exactly the cone of cells ahead of the robot, so that a
  feasible move never panics and every wide box stays whole.
- **Reindeer maze** (rust/16), `ReindeerMaze`: neighbours without unsigned
  underflow, directions, the turn-cost table and the search's edge costs.
- **Three-bit computer** (rust/17), `VmInstructions`, `VmProgram` and
  `VmInterpreter`: instruction decoding and encoding, instruction lookup by
  program counter, and the one-step interpreter over a mutable machine
  state.
- **Falling bytes** (rust/18), `MemorySpaceGrid` and `MemoryPath`: the memory
  grid, corruption of single cells, neighbours, and a breadth-first search
  that stands in for the A* library call in both parts.
- **Towels** (rust/19), `Towels`: composability and the number of ways to
  lay out a design, with the memo tables the recursion threads.
- **Race track** (rust/20), `RaceMapGrid`, `RaceTrack` and `RaceCheats`: map
  parsing, the walk along the single track, the cheats and the steps they
  save.
- **Keypad robots** (rust/21), `KeypadUtils`, `Keypads`, `PathTable`,
  `KeypadCosts`, `KeypadRobots`, `KeypadSolutions` and `KeypadComplexity`:
  point arithmetic, the candidate paths that avoid the gap, the brute-force
  search over mutable keypads and the layered cost table. The two are proved
  to agree.
- **Monkey market** (rust/22), `Secrets`, `Prices` and `MonkeyMarket`: the
  secret generator, prices and price changes, and the first-window lookup
  tables summed over buyers.
- **Logic gates** (rust/24), `Gates`: gate parsing and truth tables.
- **Keys and locks** (rust/25), `KeysLocks`: block parsing into column
  heights, and the count of fitting pairs.
- **Word search** (java/4), `PatternMatching`: the string table, the pattern
  builder and the matcher.
- **Print queue** (java/5), `PageOrdering`: the two rule maps, the validity
  check and the repair that builds a valid ordering.
- **Patrolling guard** (java/6), `Guards`: the turning loop and the step.
- **Bridge calibration** (java/7), `Combinations` and `Calibration`: the
  odometer over operator choices and the left-to-right solver.
- **Antenna pairs** (java/8), `PairCombinations`: the iterator over every
  two positions of a list.
- **Disk compaction** (java/9), `DiskMap`, `DiskCompaction`,
  `DiskCompactionAsWritten` and `DiskWholeFiles`: the disk map, part one as
  written and corrected, and part two with whole files.
- **Hiking trails** (java/10), `TopoMaps`, `HikingTrails` and `RouteSearch`:
  the height map and the level-by-level propagation of trailhead lists.
- **Plutonian pebbles** (java/11), `PlutoStones` and `StoneCounting`: the
  blink rules, and the cached count of stones.
- **Garden regions** (java/12), `Garden`, `RegionsBuilding`, `Regions` and
  `RegionSides`: the flood fill into regions, perimeter, area and the side
  iterator.
- **Restroom robots** (java/14), `RobotArithmetic` and `RobotSimulation`:
  Java's remainder, the positive modulus, fast-forward and rewind, and the
  count map.
- `Wrappers` and `Sets` are shared helpers. A Rust `None` or `Err`, a
  missing Java value or a thrown exception becomes an `Option` or `Result`.

Values the source treats as immutable become datatypes and functions.
Objects whose fields the source updates become classes whose methods are
proved against specification functions. Examples are the warehouse
simulation, the keypad arms, the VM state, the route searcher, the region
side iterator, the guard, the odometer, the pair iterator, the page rules,
the stone cache and the robot simulation. Source loops become `while` or
`for` loops with invariants.

Integers are unbounded unless the source's width matters. The VM registers
model `u64` explicitly, with its overflow. The secrets are kept within `u64`
as well; the one overflow the source can meet, `secret * 64` on a seed of
2^58 or more, is excluded by a requirement (see `Secrets.NextSecret` under
"Left out"). Keypad points
are unbounded naturals: of their `usize` arithmetic only the underflow that
`checked_add_signed` guards against is modelled.

## Model

| member | source | states |
|---|---|---|
| LocationLists.SortInPlace | rust/1/src/main.rs:45-46 | after the sort the list is in ascending order and holds the same ids (a permutation of the input) |
| LocationLists.SortSpec | rust/1/src/main.rs:45-46 | the reference sort yields an ascending permutation of its input |
| LocationLists.SortedUnique | rust/1/src/main.rs:45-46 | two ascending lists with the same ids are the same list, so any correct sort gives the same result |
| LocationLists.SortPermutation | rust/1/src/main.rs:45-46 | the sorted list depends only on the multiset of ids |
| LocationLists.SumOfGaps | rust/1/src/main.rs:48 | the zip-map-sum equals the sum of absolute differences of the pairs at equal positions |
| LocationLists.Distance | rust/1/src/main.rs:41-49 | `distance` sorts copies of both lists and sums the pairwise gaps; the inputs are not changed |
| LocationLists.DistanceProperties | rust/1/src/main.rs:41-49 | the distance is symmetric, zero between a list and any rearrangement of itself, and unchanged when either list is permuted |
| LocationLists.SampleDistance | rust/1/src/main.rs:78-86 | the sample lists, in any order, have distance 11 |
| LocationLists.SimilarityScore | rust/1/src/main.rs:51-62 | counting the right ids in a map and summing id times count over the left list gives the similarity; ids missing from the map add nothing |
| LocationLists.ScoreAdd | rust/1/src/main.rs:54-56 | one more right id adds that id once for each of its occurrences on the left |
| LocationLists.SimilaritySymmetric | rust/1/src/main.rs:51-62 | the similarity score is symmetric in the two lists |
| LocationLists.SampleSimilarity | rust/1/src/main.rs:88-96 | the sample lists have similarity 31 |
| Reports.IsSafe | rust/2/src/main.rs:43-65 | `is_safe` answers true exactly when the report is monotone in the direction of its first two levels with every step between 1 and 3; reports shorter than two levels are safe |
| Reports.SafeSnoc | rust/2/src/main.rs:51-62 | one more level keeps a report safe exactly when the loop's check on that step passes |
| Reports.SafePrefix | rust/2/src/main.rs:51-62 | every prefix of a safe report is safe |
| Reports.SafeDropEnd | rust/2/src/main.rs:43-65 | dropping the first or the last level keeps a report safe |
| Reports.Without | rust/2/src/main.rs:75-78 | skipping position `ignore` removes exactly one level when it is in range and nothing otherwise |
| Reports.IsSafeIgnoring | rust/2/src/main.rs:71-99 | `is_safe_ignoring` decides safety of the report with position `ignore` skipped, the direction fixed by the first two kept levels |
| Reports.CheckLevel | rust/2/src/main.rs:80-95 | one kept level passes exactly when the scanned levels plus it are still safe |
| Reports.UnsafePrefix | rust/2/src/main.rs:86-92 | the early `return false` is right: an unsafe scanned prefix makes the whole report unsafe |
| Reports.IsSafeIgnoringOne | rust/2/src/main.rs:67-69 | true exactly when skipping some single position leaves a safe report; an empty report yields false |
| Reports.SafeIsSafeIgnoringOne | rust/2/src/main.rs:67-69 | a safe non-empty report is also safe with one level ignored, so the damper never loses a report |
| Reports.SampleReports | rust/2/src/main.rs:105-122 | the unit-test reports: `7 6 4 2 1` safe, `1 2 3 2` and `1 2 3 7` unsafe |
| Warehouses.FieldFrom | rust/15/src/warehouse.rs:231-239 | the four characters of part one, and only they, read as a field, which is shown as that character again; every other character is the panic |
| Warehouses.FieldFromChar | rust/15/src/warehouse.rs:231-239 | every part-one field reads back from the character it is shown as |
| Warehouses.OtherSide | rust/15/src/warehouse.rs:210-227 | a left half's partner is the right half one column on; a right half's is the left half one column back, and a right half in column 0 underflows |
| Warehouses.OtherSideInvolution | rust/15/src/warehouse.rs:210-227 | going to the other half twice returns to the same half at the same point |
| Warehouses.WalkIsOffset | rust/15/src/warehouse.rs:135-167 | the k-th point of a walk is the start plus k steps of the direction, as long as it stays in the range of `usize` |
| Warehouses.PointIterator.InDirection | rust/15/src/warehouse.rs:135-148 | a new walk has taken nothing and yields its start first |
| Warehouses.PointIterator.Next | rust/15/src/warehouse.rs:154-167 | each call yields the next point of the walk and counts it as taken |
| Warehouses.NewGrid | rust/15/src/warehouse.rs:16-25 | a warehouse has as many rows as given and the first row's width, whatever the lengths of the other rows; it is rectangular when every row has that width; without a row the source panics |
| Warehouses.Write | rust/15/src/warehouse.rs:179-181 | on any cell that exists, writing a field changes that cell and no other and keeps every row's length, so a rectangular warehouse stays rectangular |
| Warehouses.NextInDirection | rust/15/src/warehouse.rs:60-66 | on any warehouse `new` builds: no point (`None`) exactly when the start is outside or the point ahead is; the `Index` panic exactly when the start or the point ahead is in range but missing from a short row; otherwise the point one step ahead and its field; a rectangular warehouse never panics here |
| Warehouses.ShortRowLookahead | rust/15/src/warehouse.rs:89-101 | a walk down from the end of the first row of a two-row warehouse whose second row is one field short panics when it reads the missing cell |
| Warehouses.LongRowLookahead | rust/15/src/warehouse.rs:89-101 | a walk down a one-column warehouse whose second row is longer reads that row's first field and runs |
| Warehouses.ScaledRow | rust/15/src/warehouse.rs:27-54 | a row scales exactly when it has no wide box, and then each field becomes its pair of fields in order |
| Warehouses.ScaledRowsMeaning | rust/15/src/warehouse.rs:27-54 | the rows scale exactly when every row does, each one to its own scaling |
| Warehouses.ScaledUp | rust/15/src/warehouse.rs:27-54 | the scaled warehouse has the same height and twice the width, each field replaced by its pair; a wide box in the input is the panic |
| Warehouses.ScaledFieldHalves | rust/15/src/warehouse.rs:42-50 | a scaled field never starts with a right half or ends with a left half, and starts with a left half exactly when it ends with a right half |
| Warehouses.ScaledUpPaired | rust/15/src/warehouse.rs:27-54 | every wide box of a scaled-up warehouse has its two halves side by side |
| Warehouses.ScaledUpCounts | rust/15/src/warehouse.rs:27-54 | scaling keeps the number of robots and turns every box into exactly one wide box |
| Warehouses.WriteCount | rust/15/src/warehouse.rs:179-181 | a write moves one unit of count from the overwritten field to the written one |
| Warehouses.Gps | rust/15/src/warehouse.rs:68-87 | the score is defined exactly when both dimensions are nonzero and no row is shorter than the first, as `iter_fields` underflows or indexes a missing cell otherwise |
| Warehouses.Trim | rust/15/src/warehouse.rs:75-87 | the rectangle `iter_fields` walks is rectangular, of the warehouse's dimensions, and holds the warehouse's field at every in-range point |
| Warehouses.GpsTrim | rust/15/src/warehouse.rs:68-87 | fields of a longer row beyond the first row's width never count: the warehouse scores what its rectangle scores |
| Warehouses.ShortRowGps | rust/15/src/warehouse.rs:75-87 | a second row shorter than the first makes `gps` panic |
| Warehouses.LongRowGps | rust/15/src/warehouse.rs:68-87 | in a two-column warehouse whose second row holds a third box, that box does not count: the score is 101 |
| Warehouses.GpsWrite | rust/15/src/warehouse.rs:68-73 | only boxes and left halves are scored: a write changes the score by the weight written minus the weight overwritten |
| Warehouses.Warehouse.constructor | rust/15/src/warehouse.rs:16-25 | the object holds the given grid |
| Warehouses.Warehouse.Set | rust/15/src/warehouse.rs:179-181 | writing a field in place fails, changing nothing, exactly when the cell does not exist (the `IndexMut` panic), and otherwise leaves the contents the grid with that one field written |
| WarehouseSimulation.Pushed | rust/15/src/simulation.rs:40-59 | on any warehouse `new` builds, a push that does not panic has a point ahead and keeps every row's length; a rectangular warehouse stays rectangular |
| WarehouseSimulation.Moved | rust/15/src/simulation.rs:40-62 | on any warehouse `new` builds, a move that does not panic has a point ahead and keeps every row's length; a rectangular warehouse stays rectangular |
| WarehouseSimulation.NextIsAhead | rust/15/src/simulation.rs:41-53 | the point ahead, and on a vertical move the other half of a wide box there, lie strictly ahead of the start, so the recursion ends |
| WarehouseSimulation.PushedFrame | rust/15/src/simulation.rs:40-59 | pushing leaves every cell that is not strictly ahead of `from` unchanged |
| WarehouseSimulation.MovedFrame | rust/15/src/simulation.rs:40-62 | a move writes only `from` and cells strictly ahead of it |
| WarehouseSimulation.PushedClears | rust/15/src/simulation.rs:45-59 | after the push the cell ahead is empty and `from` is as it was |
| WarehouseSimulation.MovedSwaps | rust/15/src/simulation.rs:60-61 | a committed move puts the contents of `from` one cell on and leaves `from` empty |
| WarehouseSimulation.MovedKeepsCounts | rust/15/src/simulation.rs:40-62 | a move keeps the number of each kind of field: no robot or box appears or vanishes |
| WarehouseSimulation.PushedKeepsCounts | rust/15/src/simulation.rs:45-59 | a push keeps the number of each kind of field |
| WarehouseSimulation.FeasibleLineCommits | rust/15/src/simulation.rs:18-38 | with the single-cell boxes of part one, a move the feasibility check allows never panics |
| WarehouseSimulation.CanMove | rust/15/src/simulation.rs:18-38 | on any warehouse `new` builds, a verdict exists only when the next cell is in the warehouse, exists in its row and holds no robot; a wall ahead means no, an empty cell yes, and a yes never has a wall ahead |
| WarehouseSimulation.RobotMove | rust/15/src/simulation.rs:12-16 | on any warehouse `new` builds, the warehouse keeps every row's length; an infeasible move changes nothing, and a feasible one puts the robot on the next cell |
| WarehouseSimulation.RobotMoveKeepsRobot | rust/15/src/simulation.rs:12-16 | a robot move keeps exactly one robot, at the robot position: either nothing changed, or the robot stands one cell on and its old cell is empty |
| WarehouseSimulation.StepIntoEmptyKeepsGps | rust/15/src/simulation.rs:12-16 | a robot stepping onto an empty cell leaves the GPS score as it was |
| WarehouseSimulation.HorizontalShift | rust/15/src/simulation.rs:46-49 | a horizontal move shifts one stretch of one row by a cell into the first empty cell ahead and leaves every other row as it was |
| WarehouseSimulation.ShiftedRowPaired | rust/15/src/simulation.rs:46-49 | shifting a row from a cell that holds no half keeps every wide box of the row in one piece |
| WarehouseSimulation.HorizontalMovePaired | rust/15/src/simulation.rs:46-49 | a horizontal move keeps every wide box in one piece |
| WarehousePushes.Partner | rust/15/src/warehouse.rs:210-227 | in a warehouse of whole wide boxes every half has its other half in the warehouse, on the same row, as the opposite half, where `other_side` says |
| WarehousePushes.PartnerOfPartner | rust/15/src/warehouse.rs:210-227 | the other half of the other half is the half itself |
| WarehousePushes.ConeAhead | rust/15/src/simulation.rs:40-59 | every cell a move carries on is its start or lies strictly ahead of it, and inside the warehouse |
| WarehousePushes.ConeClosed | rust/15/src/simulation.rs:45-54 | the cells a move carries on include all the cells that each of them carries on |
| WarehousePushes.ConePartner | rust/15/src/simulation.rs:50-54 | a vertical move carries on both halves of every wide box it carries on, apart from its start |
| WarehousePushes.MovedShift | rust/15/src/simulation.rs:40-62 | a feasible vertical move, on a warehouse where earlier pushes have already carried a closed set of cells on, never panics and carries exactly its cone one cell on, emptying the cells it leaves |
| WarehousePushes.SecondHalf | rust/15/src/simulation.rs:50-53 | after the half ahead of a vertical wide-box push has carried its cone, the other half is still outside the moved set, as is the cell behind it, and the moved set stays closed under cones and partners |
| WarehousePushes.WideBoxMove | rust/15/src/simulation.rs:47-62 | pushing both halves of a wide box one after the other and then moving the start carries the start's cone one cell on |
| WarehousePushes.ShiftPaired | rust/15/src/simulation.rs:40-62 | carrying the robot's cone one cell on vertically keeps every wide box whole |
| WarehousePushes.RobotMoveKeepsPairs | rust/15/src/simulation.rs:12-62 | on a warehouse of whole wide boxes a robot move in any direction panics only where the feasibility check does, and keeps every wide box whole |
| WarehouseSimulation.Simulation.constructor | rust/15/src/simulation.rs:6-9 | the simulation holds the given warehouse and robot position |
| WarehouseSimulation.Simulation.MoveRobot | rust/15/src/simulation.rs:12-16 | on any warehouse `new` builds, the in-place robot move fails exactly when the source panics, and otherwise leaves the warehouse and robot position that `RobotMove` gives |
| WarehouseSimulation.Simulation.MoveInDirection | rust/15/src/simulation.rs:40-63 | on any warehouse `new` builds, the in-place move fails exactly when the source panics, and otherwise leaves the warehouse that `Moved` gives |
| WarehouseSimulation.Simulation.PushAhead | rust/15/src/simulation.rs:45-59 | on any warehouse `new` builds, the in-place push on what lies ahead fails exactly when the source panics, and otherwise leaves the warehouse that `Pushed` gives |
| WarehouseSimulation.Simulation.PushBothHalves | rust/15/src/simulation.rs:50-54 | on any warehouse `new` builds, a vertical push of a wide box, half ahead first and then the other half, fails exactly when either move panics, and otherwise composes the two moves |
| ReindeerMaze.Neighbours | rust/16/src/utils.rs:8-32 | down and right always, up and left unless the coordinate is 0: exactly the points at distance 1, two to four of them |
| ReindeerMaze.DirectionTo | rust/16/src/utils.rs:34-49 | a direction exists exactly when the points differ and share a row or a column |
| ReindeerMaze.DirectionToReversed | rust/16/src/utils.rs:34-49 | the direction back is the opposite one |
| ReindeerMaze.AdjacentDirection | rust/16/src/main.rs:76-93 | a neighbour always lies in a straight direction, so the two `expect`s never fire |
| ReindeerMaze.TurnCostTable | rust/16/src/main.rs:100-123 | no turn costs 0, a reversal 2000, a quarter turn 1000; an unknown direction counts as Right |
| ReindeerMaze.TurnCost | rust/16/src/main.rs:100-123 | every turn costs 0, 1000 or 2000; `ReindeerMaze.TurnCostTable` says which |
| ReindeerMaze.TurnCostSymmetric | rust/16/src/main.rs:100-123 | the turn cost is symmetric in the two directions |
| ReindeerMaze.TurnCostEntries | rust/16/src/main.rs:105-122 | the table agrees with the source row by row |
| ReindeerMaze.NewMaze | rust/16/src/maze.rs:12-21 | the maze keeps the rows, height is their number and width the first row's length; an empty map is refused |
| ReindeerMaze.IsWalkable | rust/16/src/maze.rs:23-29 | a point is walkable exactly when it is in range and a space; indexing a short row is the panic case |
| ReindeerMaze.WalkableAmong | rust/16/src/main.rs:63-72 | the filter keeps exactly the walkable candidates, in order |
| ReindeerMaze.Edges | rust/16/src/main.rs:83-97 | one edge per target, entered from the current point, costing exactly 1 plus the turn cost from the arrival direction to the direction of that target |
| ReindeerMaze.Successors | rust/16/src/main.rs:62-98 | the successors are the walkable neighbours in order, each entered from the current point at cost exactly 1 plus the turn cost from the direction the node was entered in (Right at the start) to the direction of the move; an unstraight previous step is the `expect` panic |
| ReindeerMaze.SuccessorsComplete | rust/16/src/main.rs:62-98 | every walkable neighbour is a successor |
| VmInstructions.ParseLiteral | rust/17/src/instructions.rs:65-71 | a literal parses exactly when it is below 8, and encodes back to itself |
| VmInstructions.ParseCombo | rust/17/src/instructions.rs:86-94 | a combo operand parses exactly on 0..6, to a literal on 0..3 and a register otherwise, and encodes back to itself |
| VmInstructions.Parse | rust/17/src/instructions.rs:17-29 | a parsed instruction encodes back to the opcode and operand it came from |
| VmInstructions.Encode | rust/17/src/instructions.rs:32-45 | the encoded opcode is below 8 |
| VmInstructions.ParseAccepts | rust/17/src/instructions.rs:17-29 | exactly the opcodes 0..7 with an operand valid for that opcode parse, and the result is well formed |
| VmInstructions.ParseEncode | rust/17/src/instructions.rs:17-45 | encoding a well-formed instruction and parsing it back gives it back |
| VmInstructions.EncodeParse | rust/17/src/instructions.rs:17-45 | parsing and then encoding returns the original pair |
| VmInstructions.ComboRoundTrip | rust/17/src/instructions.rs:86-106 | combo encoding is the inverse of combo parsing |
| VmProgram.GetInstruction | rust/17/src/program.rs:14-16 | an instruction is found exactly when `pc / 2` is within the program |
| VmProgram.GetInstructionValid | rust/17/src/program.rs:14-24 | `valid_pc` holds exactly when `get_instruction` finds one, namely the instruction at `pc / 2` |
| VmProgram.ValidPc | rust/17/src/program.rs:22-24 | a pc is valid exactly when it is one of the program's cells, two per instruction |
| VmProgram.OddPc | rust/17/src/program.rs:14-16 | an odd pc names the same instruction as the even pc before it |
| VmProgram.ValidPcMonotone | rust/17/src/program.rs:22-24 | once a pc is invalid every larger one is too |
| VmInterpreter.XorBound | rust/17/src/interpreter.rs:27-29 | xor of two k-bit numbers is a k-bit number, so BXL and BXC stay in `u64` |
| VmInterpreter.XorTwice | rust/17/src/interpreter.rs:27-29 | xor with the same value twice is the identity |
| VmInterpreter.ParseOperand | rust/17/src/interpreter.rs:62-69 | a literal operand is its value and a register operand the register's content |
| VmInterpreter.DivPow | rust/17/src/interpreter.rs:23-26 | `a / 2.pow(e)` is the rounded-down quotient and fails exactly when `2^e` does not fit in a `u64` |
| VmInterpreter.DivBounds | rust/17/src/interpreter.rs:23-26 | the quotient times the divisor stays within one divisor of the dividend, and never exceeds it |
| VmInterpreter.ExecuteFails | rust/17/src/interpreter.rs:20-60 | executing fails exactly when a division's power overflows |
| VmInterpreter.Execute | rust/17/src/interpreter.rs:20-60 | executing an instruction fails exactly on the `u64` power overflow; otherwise JNZ with A nonzero jumps to its literal and every other step advances the pc by 2 |
| VmInterpreter.StepMachine | rust/17/src/interpreter.rs:9-18 | a step fails exactly when the pc names no instruction or that instruction overflows |
| VmInterpreter.ExecuteDivision | rust/17/src/interpreter.rs:23-26 | ADV, BDV and CDV store A divided by 2 to the operand in A, B and C and leave the other registers alone |
| VmInterpreter.ExecuteRegisterB | rust/17/src/interpreter.rs:27-41 | BXL xors B with its literal, BXC xors B with C, BST stores the operand modulo 8 in B; A and C are unchanged |
| VmInterpreter.ExecutePc | rust/17/src/interpreter.rs:33-38 | JNZ jumps to its literal exactly when A is not 0; every other instruction advances the pc by 2 |
| VmInterpreter.ExecuteOut | rust/17/src/interpreter.rs:42-46 | only OUT changes the output, appending one value below 8 |
| VmInterpreter.BxlTwice | rust/17/src/interpreter.rs:27-29 | two BXL with the same literal restore B |
| VmInterpreter.StepFails | rust/17/src/interpreter.rs:9-18 | a step fails exactly when the pc names no instruction or the instruction there overflows |
| VmInterpreter.State.constructor | rust/17/src/state.rs:1-13 | a fresh state has pc 0, the given registers and no output |
| VmInterpreter.State.ExecuteInstruction | rust/17/src/interpreter.rs:20-60 | the state afterwards is the one the execution function gives; on failure nothing has changed |
| VmInterpreter.State.Step | rust/17/src/interpreter.rs:9-18 | `step` fetches the instruction at the pc and executes it, or fails with "Invalid pc" and leaves the state as it was |
| VmInterpreter.ExamplesRegisterB | rust/17/src/interpreter.rs:27-32 | worked single steps: B = 29 xor 7 gives 26; BST of C = 9 gives 1 |
| VmInterpreter.ExamplesOutAdv | rust/17/src/interpreter.rs:23-26 | worked single steps: OUT of A = 10 appends 2; ADV 3 divides 729 by 8 |
| MemorySpaceGrid.Blank | rust/18/src/map.rs:13-23 | the new grid has `height` rows of `width` cells, all Normal |
| MemorySpaceGrid.CorruptOnlyCell | rust/18/src/map.rs:25-27 | `corrupt` turns exactly the one cell Corrupted and keeps every other cell and the sizes |
| MemorySpaceGrid.CorruptIdempotent | rust/18/src/map.rs:25-27 | corrupting a cell twice is the same as once |
| MemorySpaceGrid.PointNeighbours | rust/18/src/map.rs:91-103 | the offsets down, right, up, left in that order, dropping those whose checked addition would go below 0 |
| MemorySpaceGrid.FreeAmong | rust/18/src/map.rs:36-39 | the two filters keep exactly the in-range, uncorrupted candidates |
| MemorySpaceGrid.Neighbours | rust/18/src/map.rs:33-40 | the neighbours are exactly the in-range, uncorrupted points at distance 1, at most four |
| MemorySpaceGrid.MemorySpace.constructor | rust/18/src/map.rs:13-23 | the new memory space holds the blank grid |
| MemorySpaceGrid.MemorySpace.Corrupt | rust/18/src/map.rs:25-27 | an in-range cell becomes Corrupted; an out-of-range point is the indexing panic and changes nothing |
| MemoryPath.Successors | rust/18/src/main.rs:70-76 | one successor per neighbour, in order, each a free adjacent point at cost 1 |
| MemoryPath.SuccessorsComplete | rust/18/src/main.rs:70-76 | every free adjacent point is a successor |
| MemoryPath.BfsRound | rust/18/src/main.rs:59-68 | one breadth-first round adds exactly the new free cells next to the frontier |
| MemoryPath.ReachInMonotone | rust/18/src/main.rs:59-68 | the layers reached within k steps only grow |
| MemoryPath.Stationary | rust/18/src/main.rs:59-68 | once a layer adds nothing no later layer does |
| MemoryPath.FoundShortest | rust/18/src/main.rs:59-68 | the first layer containing the end gives the fewest steps |
| MemoryPath.NeverReached | rust/18/src/main.rs:59-68 | a layer that adds nothing and misses the end means no path exists |
| MemoryPath.ShortestSteps | rust/18/src/main.rs:59-68 | the search returns the fewest steps from start to end, and nothing exactly when the end cannot be reached |
| MemoryPath.PathReaches | rust/18/src/main.rs:59-68 | a path of n steps reaches its end within n layers |
| MemoryPath.ReachedByPath | rust/18/src/main.rs:59-68 | whatever lies within k layers is the end of a path of at most k steps |
| MemoryPath.ShortestIsFewestSteps | rust/18/src/main.rs:35-38 | the step count is one less than the length of some path, and no path is shorter |
| MemoryPath.HeuristicStep | rust/18/src/main.rs:78-80 | one step further the Manhattan heuristic grows by at most one |
| MemoryPath.Heuristic | rust/18/src/main.rs:78-80 | the heuristic is zero exactly at the end and one next to it; `MemoryPath.HeuristicAdmissible` proves it never overestimates |
| MemoryPath.HeuristicAdmissible | rust/18/src/main.rs:78-80 | the heuristic never exceeds the true step count, so an A* search with it finds shortest paths |
| MemoryPath.CorruptAll | rust/18/src/main.rs:22-25 | corrupting the points one after another keeps the sizes and fails on an out-of-range point |
| MemoryPath.CorruptAllFails | rust/18/src/main.rs:22-25 | a failure part-way stays a failure |
| MemoryPath.PartOne | rust/18/src/main.rs:19-39 | `part_one` is the fewest steps from the top-left to the bottom-right corner after the first `time_ns` bytes fall; it fails when no path exists |
| MemoryPath.PartTwo | rust/18/src/main.rs:41-57 | `part_two` returns the first byte after which the corner can no longer be reached, and fails when no byte blocks it |
| MemorySpaceGrid.CorruptCell | rust/18/src/map.rs:25-27 | after corrupting an in-range cell the grid still has `height` rows of `width` cells |
| Towels.ComposableConcat | rust/19/src/main.rs:40-59 | two composable designs put together are composable |
| Towels.TowelComposable | rust/19/src/main.rs:35-38 | every towel is composable by itself, which seeding the memo with `true` relies on |
| Towels.IsComposableRec | rust/19/src/main.rs:40-59 | the memoised search answers whether the design can be laid from towels, keeps the memo truthful and only adds entries |
| Towels.Record | rust/19/src/main.rs:52-57 | recording a truthful answer keeps the memo truthful |
| Towels.NoSplit | rust/19/src/main.rs:47-58 | a nonempty design with no composable prefix before a composable rest is not composable |
| Towels.IsComposable | rust/19/src/main.rs:35-38 | `is_composable` answers whether the design can be laid from the towels |
| Towels.CountIsDecompositions | rust/19/src/main.rs:69-89 | the arrangement count is the number of listed arrangements |
| Towels.DecompositionsSound | rust/19/src/main.rs:69-89 | every listed arrangement uses real towels and spells the design |
| Towels.DecompositionsComplete | rust/19/src/main.rs:69-89 | every arrangement of the design by towels is listed |
| Towels.DecompositionsDistinct | rust/19/src/main.rs:69-89 | no arrangement is listed twice, so the count counts arrangements |
| Towels.ComposableIffCount | rust/19/src/main.rs:35-89 | without empty towels the two parts agree: a design is composable exactly when its count is positive |
| Towels.CountComposabilityRec | rust/19/src/main.rs:69-89 | the cached count equals the number of arrangements and the cache stays truthful |
| Towels.CountComposability | rust/19/src/main.rs:61-67 | one cache shared by all designs; the total is the sum of their arrangement counts |
| Towels.ComposableExamples | rust/19/src/main.rs:95-108 | with towels `abc`, `def`: `abcdef` and `def` are composable, `abcd` and `bbb` are not |
| Towels.CountSingleExample | rust/19/src/main.rs:110-117 | one matching towel gives one arrangement |
| Towels.CountTwoWaysExample | rust/19/src/main.rs:119-133 | `abcdef` has two arrangements with `ab, c, cd, ef, def` |
| Towels.CountOverlapExample | rust/19/src/main.rs:135-149 | `abc` has four arrangements with `abc, ab, bc, a, b, c` |
| RaceMapGrid.NewRaceMap | rust/20/src/race_map.rs:13-18 | the map keeps the rows, height is their number and width the first row's length; a map without rows is the `expect` failure |
| RaceMapGrid.FieldAt | rust/20/src/race_map.rs:37-39 | indexing succeeds exactly where the rows reach the point |
| RaceMapGrid.StepDistanceMetric | rust/20/src/race_map.rs:67-69 | the step distance is symmetric, zero exactly on equal points and obeys the triangle inequality |
| RaceMapGrid.Neighbours | rust/20/src/race_map.rs:55-65 | the checked offsets give exactly the points at distance 1, two to four of them |
| RaceMapGrid.TracksAmongSpec | rust/20/src/race_map.rs:24-25 | the filter fails exactly on an in-range point the rows do not reach and otherwise keeps exactly the track points |
| RaceMapGrid.NeighbourTracks | rust/20/src/race_map.rs:20-27 | the result is exactly the in-range track cells one step away, at most four |
| RaceMapGrid.NeighbourTracksExample | rust/20/src/race_map.rs:102-115 | on the two-row test map the cell (0,1) has exactly the track neighbours (0,2) and (1,1) |
| RaceMapGrid.PointsWithinStepDistance | rust/20/src/race_map.rs:71-88 | growing the set by neighbours `distance` times yields exactly the points within that step distance, the start included |
| RaceCheats.Cheatcodes | rust/20/src/cheat.rs:5-16 | the cheats from a track point are exactly the moves to later track points within the cheat length; from a point off the track the `unwrap` panics exactly when such a point exists |
| RaceCheats.StepsSaved | rust/20/src/cheat.rs:18-30 | the saving is the gain in track position minus the cheat's length, none when either subtraction would underflow; a point off the track is the `expect` failure |
| RaceCheats.StepsSavedExamples | rust/20/src/cheat.rs:65-93 | on the test track both test cheats save 2 |
| RaceCheats.CheatsFromShortExample | rust/20/src/cheat.rs:95-119 | on the test track the length-2 cheats from (1,1) go exactly to (3,1), (1,2) and (2,2) |
| RaceCheats.CheatsFromLongExample | rust/20/src/cheat.rs:121-144 | on the test track the length-3 cheats from (0,1) go exactly to the four expected points |
| RaceCheats.CheatsSavings | rust/20/src/main.rs:46-60 | one saving per cheat with a saving, each cheat once, and the cheats are exactly those of the given length with a saving |
| RaceCheats.CountAtLeastIsCheats | rust/20/src/main.rs:39-44 | counting the savings of at least the minimum counts the cheats that save that much |
| RaceCheats.CountCheats | rust/20/src/main.rs:39-44 | `count_cheats` is the number of cheats of at most the given length that save at least the minimum |
| RaceCheats.SavingCheatsMonotone | rust/20/src/main.rs:39-44 | a larger minimum saving never counts more cheats |
| RaceTrack.Without | rust/20/src/main.rs:69-71 | `retain` keeps exactly the points other than the one just left, in order |
| RaceTrack.ForwardNeighbours | rust/20/src/main.rs:68-71 | the candidates are exactly the track neighbours other than the point just left |
| RaceTrack.StepAtMeans | rust/20/src/main.rs:67-78 | each forced step goes to an adjacent track cell other than the point just left, and the only such cell |
| RaceTrack.FindTrack | rust/20/src/main.rs:62-81 | the track starts at the start and is a forced walk; it ends at the end exactly when reached, and fails with "Found n neighbours" when a point has a number of onward neighbours other than one |
| RaceTrack.MapToIndex | rust/20/src/main.rs:35-37 | the map has exactly the track's points, each mapped to its last position on the track |
| RaceTrack.MapToIndexDistinct | rust/20/src/main.rs:35-37 | on a track without repeats every point maps to its own position |
| RaceTrack.ParseField | rust/20/src/parse_inputs.rs:13-25 | `#` is a wall; `.`, `S` and `E` are track; any other character fails |
| RaceTrack.LastSoFarDone | rust/20/src/parse_inputs.rs:16-23 | after the scan the start (end) is the last `S` (`E`) of the input, absent exactly when none occurs |
| RaceTrack.ParseInput | rust/20/src/parse_inputs.rs:5-36 | parsing fails on an unknown character, a map without rows, or a missing start or end, in that order; otherwise it returns the map and the last start and end |
| RaceMapGrid.StepToward | rust/20/src/race_map.rs:55-69 | every point other than the start is a neighbour of a point one step closer to the start |
| KeypadUtils.ToOffset | rust/21/src/utils.rs:12-19 | every direction moves exactly one coordinate by one |
| KeypadUtils.AddOffset | rust/21/src/utils.rs:40-50 | adding an offset succeeds exactly when neither coordinate goes below 0, and then adds both coordinates |
| KeypadUtils.Distance | rust/21/src/utils.rs:52-59 | the offset from `p` to `q` added to `p` gives `q` |
| KeypadUtils.DistanceArrives | rust/21/src/utils.rs:40-59 | following the distance from `p` arrives at `q` |
| KeypadUtils.DirectionTo | rust/21/src/utils.rs:61-76 | horizontal is Right, none or Left as the column grows, stays or shrinks, vertical likewise Down, none or Up |
| KeypadUtils.OffsetMatchesDirection | rust/21/src/utils.rs:12-19 | a unit step in a direction is seen from its start point as a move in that direction alone |
| KeypadUtils.MovablePoint.constructor | rust/21/src/utils.rs:22-26 | the point holds the given coordinates |
| KeypadUtils.MovablePoint.Add | rust/21/src/utils.rs:40-50 | `add` succeeds exactly when the checked additions do; on a column failure the row has already been updated, as in the source |
| Keypads.ParseDirectional | rust/21/src/keypad.rs:15-27 | parsing succeeds exactly when every character is one of `^>v<A`, one button per character |
| Keypads.ParseNumeric | rust/21/src/keypad.rs:51-62 | parsing succeeds exactly on digits and `A`, one button per character with the digit's value |
| Keypads.CandidatePaths | rust/21/src/keypad.rs:89-101 | there are two candidates, horizontal moves first and vertical first |
| Keypads.CandidatesReachGoal | rust/21/src/keypad.rs:89-101 | both candidates have one step per unit of distance and lead to the goal |
| Keypads.PossiblePathTotal | rust/21/src/keypad.rs:108-117 | a path staying in the quadrant never makes the `unwrap` in `is_possible_path` panic |
| Keypads.PossibleIffVisits | rust/21/src/keypad.rs:108-117 | `is_possible_path` is true exactly when every point stepped on is a button |
| Keypads.PathsSpec | rust/21/src/keypad.rs:87-106 | `paths_to` returns at most two paths, each a candidate, as long as the row distance plus the column distance, ending at the goal and avoiding the gap |
| Keypads.PathsByRuns | rust/21/src/keypad.rs:94-103 | the horizontal-first candidate is kept, then the vertical-first one, each when it is possible |
| Keypads.HorizontalBlocked | rust/21/src/keypad.rs:99-103 | with the gap on the horizontal-first route only the vertical-first candidate can remain |
| Keypads.VerticalBlocked | rust/21/src/keypad.rs:99-103 | with the gap on the vertical-first route only the horizontal-first candidate can remain |
| Keypads.StraightPaths | rust/21/src/keypad.rs:94-103 | on a straight line both candidates are the same run |
| Keypads.CornerGapLeavesPath | rust/21/src/keypad.rs:87-106 | on a rectangle missing one corner, `paths_to` always finds at least one path |
| Keypads.Keypad.constructor | rust/21/src/keypad.rs:74-85 | the keypad keeps the button map and the start and builds the reverse map |
| Keypads.Keypad.IsPossiblePath | rust/21/src/keypad.rs:108-117 | walking a copy of the current point answers `is_possible_path` as specified |
| Keypads.Keypad.PathsTo | rust/21/src/keypad.rs:87-106 | for a known goal the result is the specified paths; an unknown goal is the `unwrap` panic |
| Keypads.Keypad.MoveTo | rust/21/src/keypad.rs:119-121 | the arm moves to the target button; an unknown one panics and leaves it in place |
| Keypads.DirectionalInverse | rust/21/src/keypad.rs:183-208 | the reverse map of the directional keypad sends each button to its place |
| Keypads.NumericInverse | rust/21/src/keypad.rs:133-182 | the reverse map of the numeric keypad knows exactly the digits and A, each at its place |
| Keypads.NumericShape | rust/21/src/keypad.rs:133-178 | the numeric keypad is a 4 by 3 rectangle without its lower left corner |
| Keypads.DirectionalPathsExist | rust/21/src/keypad.rs:183-208 | between any two directional buttons `paths_to` finds a path |
| Keypads.NumericPathsExist | rust/21/src/keypad.rs:133-182 | between any two numeric keys `paths_to` finds a path |
| Keypads.NumericalKeypad | rust/21/src/keypad.rs:133-182 | the numeric keypad starts over A at (3,2) |
| Keypads.DirectionalKeypad | rust/21/src/keypad.rs:183-208 | the directional keypad starts over A at (0,2) |
| Keypads.DirectionalPoint | rust/21/src/keypad.rs:183-208 | each directional button has a place on the directional keypad, and that place holds the button |
| Keypads.NumericPoint | rust/21/src/keypad.rs:133-182 | each digit and A has a place on the numeric keypad, and that place holds the key |
| KeypadCosts.Presses | rust/21/src/main.rs:72-76 | the buttons one layer up press each arrow of the path and then Activate |
| KeypadCosts.FirstShortest | rust/21/src/main.rs:81-85 | the stable `sort_by_key(len)` then `first()` picks the earliest of the shortest results |
| KeypadCosts.MinCostIsMinimum | rust/21/src/main.rs:151-172 | the running minimum is the cost of one of the paths and at most the cost of each |
| KeypadCosts.PressCostOne | rust/21/src/main.rs:155-158 | with a single directional keypad, the one the user presses, every press costs one |
| KeypadCosts.ShortestIsMinCost | rust/21/src/main.rs:81-85 | when each result is as long as its path's cost, the shortest result is as long as the cheapest path |
| KeypadCosts.BestPressesCost | rust/21/src/main.rs:105-122 | the best presses for a target exist exactly when `paths_to` finds a path, and number the least path cost |
| KeypadCosts.BruteStepsCost | rust/21/src/main.rs:93-126 | on `layers` directional keypads, all over A, the recursive search succeeds and returns exactly as many presses as the cost function prices; the two methods agree |
| KeypadCosts.BruteAllCost | rust/21/src/main.rs:107-115 | on `layers` keypads every candidate path is expanded, each result as long as the path's cost |
| KeypadCosts.NumericStepsCost | rust/21/src/main.rs:63-91 | the numeric search and the numeric pricing fail together, and otherwise the presses found number the price |
| KeypadCosts.SamePointPaths | rust/21/src/keypad.rs:87-106 | from a point to itself the only path is the empty one |
| KeypadCosts.SameButtonCost | rust/21/src/main.rs:335-425 | pressing the button the arm is over costs one press on every layer (the `Activate` to `Activate` entries of the three table tests) |
| KeypadCosts.TwoLayerCost | rust/21/src/main.rs:159-173 | on two layers a move costs one press per step between the buttons plus the activation |
| KeypadCosts.CostOfOnlyPath | rust/21/src/main.rs:151-176 | when only one path leads between two buttons, one layer more costs what pressing that path costs |
| KeypadCosts.CostTableTwoLayersToRight | rust/21/src/main.rs:385-391 | on two layers `<` to `>` costs 3 |
| KeypadCosts.CostThreeLayersToRight | rust/21/src/main.rs:416-422 | on three layers `<` to `>` costs 5 |
| KeypadCosts.LeadingDigits | rust/21/src/main.rs:31 | `take_while(is_ascii_digit)` yields the longest prefix of digits |
| KeypadCosts.DecimalValueOfDecimal | rust/21/src/main.rs:32 | reading a number's decimal writing gives the number back |
| KeypadCosts.LeadingZeroValue | rust/21/src/main.rs:32 | leading zeros do not change the parsed value |
| KeypadCosts.CodeNumberRoundTrip | rust/21/src/main.rs:30-33 | a number written in decimal, with or without leading zeros, in front of a non-digit is read back by `code_number` |
| KeypadCosts.CodeNumber | rust/21/src/main.rs:30-33 | a code number fits a `usize`, and a code without a leading digit has none |
| KeypadCosts.CodeNumberNoDigits | rust/21/src/main.rs:30-33 | an empty code or one starting with a non-digit has no number: parsing the empty string fails |
| KeypadCosts.CodeNumberExample | rust/21/src/main.rs:30-33 | `029A` is code number 29 |
| KeypadCosts.Terms | rust/21/src/main.rs:35-44 | one term per code, in order |
| KeypadCosts.TermsAt | rust/21/src/main.rs:38-42 | each code's term is its complexity times its number |
| KeypadCosts.ComplexityAgrees | rust/21/src/main.rs:465-479 | the brute-force and the dynamic-programming complexity fail together and otherwise agree, the property the proptest checks |
| KeypadCosts.TotalComplexityAgrees | rust/21/src/main.rs:35-44 | summed over several codes the two methods agree as well |
| KeypadCosts.NumericCostDefined | rust/21/src/main.rs:185-218 | on the numeric keypad pricing never fails for digits and A |
| KeypadCosts.ComplexityDefined | rust/21/src/main.rs:46-61 | exactly the codes made of digits and A have a complexity, on any positive number of keypads |
| KeypadCosts.ActivateCodeComplexity | rust/21/src/main.rs:427-434 | the code `A` costs one press on any number of keypads, in both methods |
| KeypadCosts.Complexity | rust/21/src/main.rs:46-61 | a complexity exists only for a code made of numeric buttons, and the efficient method needs at least one keypad; `KeypadCosts.ComplexityAgrees` proves both methods give the same count |
| KeypadRobots.AllButtons | rust/21/src/keypad.rs:29-38 | the five directional buttons in the source's order |
| KeypadRobots.AllButtonsComplete | rust/21/src/keypad.rs:29-38 | every directional button is listed |
| KeypadRobots.DirectionalPointsUnique | rust/21/src/keypad.rs:74-85 | the reverse map a directional keypad collects is always the same |
| KeypadRobots.RecursiveStep | rust/21/src/main.rs:105-123 | one target of `find_steps_recursive`: the best presses for it, then the rest from there |
| KeypadRobots.NumericStep | rust/21/src/main.rs:69-88 | one target of `find_steps` in the same terms |
| KeypadRobots.NumericStepMissing | rust/21/src/main.rs:69-88 | a target the numeric keypad lacks ends `find_steps` with the `unwrap` failure |
| KeypadRobots.ExpandPaths | rust/21/src/main.rs:107-115 | expanding every candidate path through the rest of the chain finds what the search function finds and leaves every arm over A again |
| KeypadRobots.PressThrough | rust/21/src/main.rs:105-122 | one target through the first keypad and the chain below: the best presses, with the chain's arms left over A |
| KeypadRobots.FindStepsRecursive | rust/21/src/main.rs:93-126 | with one keypad the targets themselves, the arm over the last; with more, the presses the search function gives, the first arm over the last target and the others over A |
| KeypadRobots.PressAll | rust/21/src/main.rs:105-123 | the loop over the targets of `find_steps_recursive` accumulates the search function's presses |
| KeypadRobots.FindSteps | rust/21/src/main.rs:63-91 | `find_steps` returns the numeric search's presses and leaves the numeric arm over the last target |
| KeypadSolutions.TablePressCostIsPressCost | rust/21/src/main.rs:165-171 | pricing by the table of `layers` keypads is the cost function |
| KeypadSolutions.Minimum | rust/21/src/main.rs:209-212 | `min` of a non-empty list is one of its elements and at most each |
| KeypadSolutions.TablePathCostsAreMinCost | rust/21/src/main.rs:193-212 | with a cost table each path is priced by the cost function and the least price is the minimum cost |
| KeypadSolutions.PathsPriceIsMinCost | rust/21/src/main.rs:193-212 | the least table price of non-empty paths is the minimum cost |
| KeypadSolutions.TargetCost | rust/21/src/main.rs:193-212 | a target is priced only when it is a numeric key |
| KeypadSolutions.TableNumericCostIsNumericCost | rust/21/src/main.rs:185-218 | pricing a code by the table of `layers` keypads is the numeric pricing |
| KeypadSolutions.TableCodeCostIsComplexity | rust/21/src/main.rs:185-218 | a table of `layers` keypads prices every code as the efficient complexity |
| KeypadSolutions.PathCost | rust/21/src/main.rs:160-171 | the loop pricing one path with the table, starting over A and ending with A |
| KeypadSolutions.MinPathCost | rust/21/src/main.rs:151-176 | no paths give no cost; otherwise the first layer costs 1 and later layers the minimum over the paths |
| KeypadSolutions.NextMinimum | rust/21/src/main.rs:159-173 | one pass keeps the running minimum of the paths seen so far |
| KeypadSolutions.ComputeEntry | rust/21/src/main.rs:149-176 | an entry of the next table is the cost of the move on one more layer |
| KeypadSolutions.AddEntry | rust/21/src/main.rs:149-176 | one `insert` enters the right cost for its pair of buttons |
| KeypadSolutions.ComputeRow | rust/21/src/main.rs:148-177 | the inner loop adds the whole row of `from` |
| KeypadSolutions.ComputeLayer | rust/21/src/main.rs:146-179 | one layer gives the cost table of one more keypad |
| KeypadSolutions.PrecomputeSolutions | rust/21/src/main.rs:141-183 | the result is the cost table of `layers` keypads; zero layers is the `unwrap` failure |
| KeypadSolutions.PriceTarget | rust/21/src/main.rs:191-215 | one target is priced from where the numeric arm rests, and the arm moves there |
| KeypadSolutions.PriceNext | rust/21/src/main.rs:191-215 | one pass adds the target's price to the running total |
| KeypadSolutions.FindNumericKeypadResult | rust/21/src/main.rs:185-218 | the code is parsed and each target priced from where the arm rests, starting over A |
| KeypadSolutions.PriceTargets | rust/21/src/main.rs:191-215 | the loop over the parsed targets sums their table prices |
| KeypadSolutions.DynamicProgrammingSolution | rust/21/src/main.rs:136-139 | the table and then the pricing give exactly the efficient complexity |
| KeypadComplexity.CodeComplexity | rust/21/src/main.rs:46-61 | `code_complexity` gives the complexity of either method |
| KeypadComplexity.DirectionalKeypads | rust/21/src/main.rs:51-56 | `layers` fresh directional keypads, each over A |
| KeypadComplexity.BruteForceComplexity | rust/21/src/main.rs:50-60 | the brute-force arm counts the presses of the search |
| KeypadComplexity.CodeTerm | rust/21/src/main.rs:38-42 | one code's complexity times its number |
| KeypadComplexity.ComplexitySum | rust/21/src/main.rs:35-44 | each code's complexity times its number, summed; the first code whose number fails ends the sum |
| PathTable.DirectionalPaths | rust/21/src/keypad.rs:87-106 | the candidate paths between two directional buttons, at least one |
| PathTable.DirectionalKeysAre | rust/21/src/keypad.rs:183-204 | the five points the directional buttons sit on |
| PathTable.DirectionalPathsArePaths | rust/21/src/keypad.rs:87-106 | the written-out table is exactly what `paths_to` returns between every two directional buttons |
| Secrets.Prune | rust/22/src/secrets.rs:23-26 | the low 24 bits kept equal the source's `secret % 16777216`; the result is below 2^24 and a secret already below 2^24 is unchanged |
| Secrets.MixInvolution | rust/22/src/secrets.rs:19-21 | mixing the same value in twice restores the secret, and mixing in 0 changes nothing |
| Secrets.Mix | rust/22/src/secrets.rs:19-21 | mixing the same value in again gives the secret back, and mixing in 0 changes nothing |
| Secrets.MixPrune | rust/22/src/secrets.rs:15-17 | a mixed and pruned value is below 2^24 |
| Secrets.NextSecret | rust/22/src/secrets.rs:8-13 | the next secret is below 2^24, so the `* 64` of the following round cannot overflow a `u64` |
| Secrets.ShiftsAreProducts | rust/22/src/secrets.rs:9-11 | the shifts used for the three rounds equal the source's `* 64`, `/ 32` and `* 2048` |
| Secrets.SecretsAt | rust/22/src/secrets.rs:1-6 | element `k` of the stream is `next_secret` applied `k + 1` times to the seed, so the seed itself is not yielded |
| Secrets.IterateShift | rust/22/src/secrets.rs:1-6 | one more step at the front of the iteration equals one more at the back |
| Secrets.SecretsPrefix | rust/22/src/secrets.rs:1-6 | taking fewer values of the stream gives a prefix of taking more |
| Secrets.MixPruneExamples | rust/22/src/secrets.rs:32-40 | `mix(42, 15) == 37` and `prune(100000000) == 16113920`, as the unit tests state |
| Secrets.Seed123 | rust/22/src/secrets.rs:42-51 | the first ten secrets of seed 123 are those of the unit test |
| Prices.ToPrice | rust/22/src/prices.rs:16-18 | a price is a single decimal digit |
| Prices.ToPriceChange | rust/22/src/prices.rs:20-23 | the conversion succeeds exactly when the difference fits an `i8`, and then gives the difference |
| Prices.ChangeFits | rust/22/src/prices.rs:20-23 | between two prices the change always fits and lies in [-9, 9], so the `expect` never fires |
| Prices.PriceStream | rust/22/src/prices.rs:12-14 | the price stream has the length taken and every price is a digit |
| Prices.ChangesFromAt | rust/22/src/prices.rs:3-10 | change `k` of the scan is price `k` minus the price before it |
| Prices.PriceChangeAt | rust/22/src/prices.rs:3-10 | the first change is taken against the seed's own price, every change is the difference of neighbouring prices and lies in [-9, 9] |
| Prices.PricesPrefix | rust/22/src/prices.rs:3-14 | fewer prices or changes taken give a prefix of more |
| Prices.Seed123Prices | rust/22/src/prices.rs:29-35 | the first ten prices of seed 123 are those of the unit test |
| Prices.Seed123Changes | rust/22/src/prices.rs:37-43 | the first ten price changes of seed 123 are those of the unit test |
| MonkeyMarket.FirstWindowFrom | rust/22/src/monkey_market.rs:79-82 | `position` over the 4-windows finds the first window equal to the sequence, or reports that none is |
| MonkeyMarket.FirstWindowBound | rust/22/src/monkey_market.rs:79-82 | a sequence occurring at `k` is found at or before `k` |
| MonkeyMarket.BuyBananas | rust/22/src/monkey_market.rs:74-85 | `monkey_buy_bananas` gives the price 3 after the first occurrence of the sequence, and nothing when it never occurs or the price list is too short |
| MonkeyMarket.BuyerLookup | rust/22/src/monkey_market.rs:11-22 | one buyer's lookup map holds, for every sequence, exactly what `monkey_buy_bananas` would answer |
| MonkeyMarket.Totals | rust/22/src/monkey_market.rs:25-31 | the totals map holds, per sequence, the sum over the buyers that have it, and has exactly the sequences some buyer has |
| MonkeyMarket.BestWindow | rust/22/src/monkey_market.rs:33-36 | `max_by_key` yields an entry of largest total, and the `expect` fails exactly on an empty map |
| MonkeyMarket.BuyerLookups | rust/22/src/monkey_market.rs:9-23 | the parallel map yields one lookup per buyer, each agreeing with `monkey_buy_bananas` |
| MonkeyMarket.SumAtIsBuyerSum | rust/22/src/monkey_market.rs:136-145 | the totals equal the brute-force sum of `monkey_buy_bananas` over the buyers |
| MonkeyMarket.EfficientOptimumSequence | rust/22/src/monkey_market.rs:8-37 | the answer is a sequence with the largest brute-force banana sum over all sequences, the property the two proptests check; it fails exactly without buyers or with fewer than 4 changes |
| Secrets.Iterate | rust/22/src/secrets.rs:1-13 | after one or more applications of `next_secret` the secret is below 2^24, and no step overflows a `u64` |
| Gates.FromName | rust/24/src/gates.rs:9-16 | a gate name parses exactly when it is `AND`, `XOR` or `OR`, and then to the gate of that name |
| Gates.FromNameOfName | rust/24/src/gates.rs:9-16 | parsing a gate's own name gives the gate back |
| Gates.TruthTables | rust/24/src/gates.rs:18-24 | AND is true only on two true inputs, OR false only on two false ones, XOR true exactly when the inputs differ |
| Gates.Calculate | rust/24/src/gates.rs:18-24 | each gate depends only on how many inputs are true: AND needs both, OR at least one, XOR exactly one |
| Gates.Commutative | rust/24/src/gates.rs:18-24 | every gate is commutative and XOR of a wire with itself is false |
| KeysLocks.MatchesSymmetric | rust/25/src/main.rs:31-33 | a key fits a lock exactly when the lock fits the key (no column's heights sum above 5) |
| KeysLocks.Matches | rust/25/src/main.rs:31-33 | for heights within the five rows, a key fits a lock exactly when no lock pin (the top `lock[i]` rows of a column) and no key tooth (the bottom `key[i]` rows) share a cell |
| KeysLocks.FittingLocks | rust/25/src/main.rs:22-26 | the inner loop counts no more fits than there are locks |
| KeysLocks.PartOne | rust/25/src/main.rs:19-29 | `part_one` counts the fitting (key, lock) pairs, at most keys times locks |
| KeysLocks.FittingPairsBound | rust/25/src/main.rs:19-29 | the number of fitting pairs is at most keys times locks |
| KeysLocks.DataLines | rust/25/src/parser.rs:13-15 | after the first line at most five lines are counted |
| KeysLocks.ColumnCount | rust/25/src/parser.rs:15-23 | a column's height is at most the number of counted lines |
| KeysLocks.BlockItem | rust/25/src/parser.rs:12-23 | every height of a parsed block lies between 0 and 5 |
| KeysLocks.CountLine | rust/25/src/parser.rs:16-22 | one line succeeds exactly when every character is `.`, or `#` within the five columns; then each `#` adds one to its column and nothing else changes |
| KeysLocks.ParseBlock | rust/25/src/parser.rs:11-29 | a block parses exactly when it has a first line and only `#`/`.` in five columns below; it is a lock when its first line starts with `#` |
| KeysLocks.Classify | rust/25/src/parser.rs:24-28 | every parsed block becomes exactly one key or one lock |
| KeysLocks.ParseInput | rust/25/src/parser.rs:5-32 | `parse_input` succeeds exactly when every block parses, and then splits the blocks into keys and locks |
| KeysLocks.SplitBlocksJoin | rust/25/src/parser.rs:11 | splitting at blank lines loses nothing: the blocks joined with the separator give the file back |
| KeysLocks.SplitBlocksSeparated | rust/25/src/parser.rs:11 | no block contains the separator, so every blank line of the file is a split point |
| KeysLocks.Lines | rust/25/src/parser.rs:13 | `lines()` yields lines that contain no newline |
| KeysLocks.NewlineAt | rust/25/src/parser.rs:13 | the line ends at the first newline, or at the end of the text without one |
| KeysLocks.LinesJoin | rust/25/src/parser.rs:13 | without carriage returns, the lines joined by newlines, with an optional final newline restored, give the text back |
| KeysLocks.ParseFile | rust/25/src/parser.rs:5-32 | parsing the file text succeeds exactly when every blank-line separated block, read as its lines, parses; keys and locks then come from those blocks in file order |
| PatternMatching.NewStringTable | java/4/src/StringTable.java:9-13 | a table holds the given lines of a nonempty input with its row count and the first line's length; an empty input has no first line |
| PatternMatching.StringPattern.constructor | java/4/src/StringPattern.java:6-7 | a new pattern has no characters |
| PatternMatching.StringPattern.AddChar | java/4/src/StringPattern.java:9-11 | adding a character puts it, with its offsets, into the pattern's set |
| PatternMatching.AllCellsMembers | java/4/src/StringTable.java:19-32 | the listed cells are exactly those with 0 <= row < rows and 0 <= col < cols, the cells `has` admits |
| PatternMatching.AllCellsOrdered | java/4/src/StringTable.java:23-32 | the cells are listed in strictly row-major order |
| PatternMatching.EmptyPatternMatches | java/4/src/PatternMatcher.java:22-36 | an empty pattern matches at every cell |
| PatternMatching.MatchingMembers | java/4/src/PatternMatcher.java:11-20 | a cell is kept exactly when it is among those tried and the pattern matches there |
| PatternMatching.MatchingOrdered | java/4/src/PatternMatcher.java:11-20 | keeping the matching cells keeps their order |
| PatternMatching.PatternMatcher.CellsIterable | java/4/src/StringTable.java:23-32 | the nested loops list every cell of the table row by row |
| PatternMatching.PatternMatcher.Matches | java/4/src/PatternMatcher.java:22-36 | true exactly when every pattern character's cell is on the table and holds that character |
| PatternMatching.PatternMatcher.FindMatches | java/4/src/PatternMatcher.java:11-20 | the result is the cells of the table, in row-major order, at which the pattern matches |
| PatternMatching.FindMatchesExact | java/4/src/PatternMatcher.java:11-36 | a cell is found exactly when it is on the table and the pattern matches there, and the matches are in row-major order |
| PageOrdering.ValidIffNoBrokenRule | java/5/src/PageOrderingConstraints.java:14-28 | for an update without repeated pages, `isValidOrdering`'s condition fails exactly when some rule "a before b" has `b` before `a` |
| PageOrdering.PageOrderingConstraints.constructor | java/5/src/PageOrderingConstraints.java:4-5 | a new rule book holds no rules, and its two maps agree |
| PageOrdering.PageOrderingConstraints.AddConstraint | java/5/src/PageOrderingConstraints.java:7-12 | the rule joins the rules and no other rule appears, and `mustBeBefore` and `mustBeAfter` stay inverse to each other |
| PageOrdering.PageOrderingConstraints.IsValidOrdering | java/5/src/PageOrderingConstraints.java:14-28 | the backwards walk answers whether no page has, among the pages only before it, one it must precede |
| PageOrdering.PageOrderingConstraints.FixOrdering | java/5/src/PageOrderingConstraints.java:30-55 | a result is a valid ordering that is a permutation of the update's pages, which have no repeats; the exception comes only on repeated pages or a set of pages each waiting for another of them |
| PageOrdering.PageOrderingConstraints.ChooseAllowed | java/5/src/PageOrderingConstraints.java:38-48 | the loop finds a remaining page with no required predecessor still remaining, or reports that every remaining page waits for one |
| PageOrdering.ValidFromPlacement | java/5/src/PageOrderingConstraints.java:39-44 | pages placed so that none precedes a page it must follow form a valid ordering |
| PageOrdering.NotDistinct | java/5/src/PageOrderingConstraints.java:36-51 | when every page is placed but the ordering is still shorter than the update, the update repeats a page |
| PageOrdering.DistinctCount | java/5/src/PageOrderingConstraints.java:33-54 | an ordering without repeats, as long as the update and with the same pages, means the update has no repeats either |
| PageOrdering.StuckHasNoValidOrdering | java/5/src/PageOrderingConstraints.java:49-51 | when no page is ruled to follow itself, a set of pages each waiting for another of them rules out every valid ordering without repeats that contains them, so the exception is thrown only when no ordering exists |
| Guards.TurnRightFacts | java/6/src/Vector.java:2-4 | a right turn takes Up (-1, 0) to Right (0, 1), and four right turns face the way the guard started |
| Guards.TurnedValues | java/6/src/Vector.java:2-4 | one to four turns are one to four applications of `turnRight`, and the fourth comes back to the start |
| Guards.Area.TurnsNeeded | java/6/src/Guard.java:19-25 | when some direction is free, fewer than four turns lead to a free direction, and every direction before it is blocked |
| Guards.Area.TurnOnce | java/6/src/Guard.java:21-24 | from a blocked direction one turn leaves one fewer turn to go and the same final direction, which is why the turning loop ends |
| Guards.Area.NeverFree | java/6/src/Guard.java:21-24 | when all four directions are blocked, every number of turns is still blocked, so the loop never ends and `step` needs a free direction |
| Guards.Guard.constructor | java/6/src/Guard.java:6-10 | the guard holds the given area, direction and location |
| Guards.Guard.ComputeMove | java/6/src/Guard.java:27-29 | the cell ahead is the one the turning loop tests: it is in the area and an obstacle exactly when the heading is blocked |
| Guards.Guard.TurnBeforeObstacles | java/6/src/Guard.java:19-25 | the guard stays put and ends facing the first free direction clockwise from where it faced |
| Guards.Guard.Step | java/6/src/Guard.java:13-16 | the guard moves by exactly the turned direction, and ends outside the area or on a cell without an obstacle |
| Guards.TurnRight | java/6/src/Vector.java:2-4 | `turnRight` turns the four headings clockwise: Up to Right, Right to Down, Down to Left and Left to Up |
| Guards.Area.CanMove | java/6/src/Guard.java:19-25 | the turning loop can stop: among zero to three right turns of the heading there is one whose cell ahead is outside the area or free of an obstacle |
| Combinations.MapToElements | java/7/src/CombinationsIterator.java:27-29 | one element per index, each the element the index picks |
| Combinations.ValueBound | java/7/src/CombinationsIterator.java:36-46 | indices below b spell a number below b^size, so there are at most that many combinations |
| Combinations.ValueInjective | java/7/src/CombinationsIterator.java:36-46 | different index sequences of one length spell different numbers, so the combinations counted through are distinct |
| Combinations.ValueAllLast | java/7/src/CombinationsIterator.java:39-46 | indices that all pick the last element spell b^size - 1, the last combination |
| Combinations.Increment | java/7/src/CombinationsIterator.java:39-46 | the carry: indices after position i were the last element and become 0, and the index at i goes up by one, which adds one to the number |
| Combinations.IncrementOrWrap | java/7/src/CombinationsIterator.java:36-50 | after the loop the indices spell one more, modulo b^size, and they wrap exactly after the last combination |
| Combinations.CountStep | java/7/src/CombinationsIterator.java:21-25 | returning one more combination moves the count modulo b^size as the indices move |
| Combinations.CombinationsIterator.constructor | java/7/src/CombinationsIterator.java:10-13 | the first combination picks the first element at every one of the `size` places, and nothing has been returned |
| Combinations.CombinationsIterator.HasNext | java/7/src/CombinationsIterator.java:15-18 | true exactly while fewer than n^size (n elements) combinations have been returned |
| Combinations.CombinationsIterator.Next | java/7/src/CombinationsIterator.java:20-25 | the elements the current indices pick, after which the indices spell the count returned modulo n^size for n elements; with nothing to pick from, the lookup throws |
| Combinations.CombinationsIterator.GoToNextCombination | java/7/src/CombinationsIterator.java:31-51 | the indices stay below the number of elements and spell one more modulo the number of combinations, and combinations remain exactly while the last one has not been passed |
| Calibration.RefuteNext | java/7/src/Solver.java:15-21 | one more failed combination extends the refuted range by one |
| Calibration.RefutedAll | java/7/src/Solver.java:15-23 | once every combination has failed, the calculation is not solvable |
| Calibration.FoldPrefix | java/7/src/Solver.java:26-35 | the fold reads only the operands it combines |
| Calibration.SingleOperand | java/7/src/Solver.java:11-27 | with one operand the calculation is solvable exactly when the operand is the total |
| Calibration.SolvableMonotone | java/7/src/Solver.java:11-24 | adding operators never makes a solvable calculation unsolvable |
| Calibration.ApplyOperators | java/7/src/Solver.java:26-35 | the loop computes the left fold ((o0 op1 o1) op2 o2) ... |
| Calibration.Solver.constructor | java/7/src/Solver.java:7-9 | the solver holds the given operators |
| Calibration.Solver.IsSolvable | java/7/src/Solver.java:11-24 | true exactly when some choice of one operator fewer than operands yields the total; no operands, or operands without operators, throw |
| PairCombinations.PairsMembers | java/8/src/ListCombinationsIterator.java:21-33 | the pairs returned are exactly the index pairs i < j of the list |
| PairCombinations.PairsCount | java/8/src/ListCombinationsIterator.java:16-33 | there are n(n-1)/2 pairs, and none for a list of fewer than two elements |
| PairCombinations.PairsSorted | java/8/src/ListCombinationsIterator.java:27-33 | the pairs come in strictly increasing lexicographic order, so none is returned twice |
| PairCombinations.ListCombinationsIterator.constructor | java/8/src/ListCombinationsIterator.java:5-13 | the iterator starts at (0, 1) with nothing returned and every pair still to come |
| PairCombinations.ListCombinationsIterator.HasNext | java/8/src/ListCombinationsIterator.java:15-18 | true exactly while some pair is left, and once false every pair has been returned |
| PairCombinations.ListCombinationsIterator.Next | java/8/src/ListCombinationsIterator.java:20-25 | the next pair in order, as the two list elements; past the last pair the lookup throws |
| PairCombinations.ListCombinationsIterator.UpdateIndices | java/8/src/ListCombinationsIterator.java:27-33 | the second index moves on, or the next row starts just after the new first index, so i < j always holds |
| DiskMap.NumericValue | java/9/src/Main.java:21-24 | `Character.getNumericValue` on ASCII: a digit gives its value, a letter of either case 10 to 35, any other ASCII character -1 |
| DiskMap.ReadInput | java/9/src/Main.java:15-30 | a line gives ceil(len/2) blocks, block k holding the numeric value of character 2k as its file length and that of character 2k+1, or 0 past the end, as its free space; a line with a character of negative numeric value or outside ASCII is refused |
| DiskMap.CompactPermutes | java/9/src/Main.java:32-80 | compacting only moves file cells: with room for them all, the result holds every file cell exactly once |
| DiskMap.CompactFront | java/9/src/Main.java:49-53 | while file cells are ahead, compaction leaves them where they stand |
| DiskMap.ChecksumSnoc | java/9/src/Main.java:51-52 | each cell adds its position times its file id to the checksum |
| DiskCompaction.RemainderStart | java/9/src/Main.java:41-45 | before the sweep, what is left to write is the whole compacted disk |
| DiskCompaction.RemainderEnd | java/9/src/Main.java:73-77 | once the front reaches the last file, only its unused cells are left, in place |
| DiskCompaction.TailCells | java/9/src/Main.java:73-77 | after the sweep, what is left is the unused cells of the last file, which the tail loop writes |
| DiskCompaction.PendingTake | java/9/src/Main.java:65-69 | a free cell takes one cell of the current last file |
| DiskCompaction.PendingStepBack | java/9/src/Main.java:57-61 | stepping back from a used-up last file to the file before it leaves the cells still to move as they were |
| DiskCompaction.FileRun | java/9/src/Main.java:49-53 | a block's file cells are written where they stand |
| DiskCompaction.BlockFiles | java/9/src/Main.java:48-56 | block i's file cells stay in place, and its free cells and the later blocks receive the pending cells |
| DiskCompaction.CountFile | java/9/src/Main.java:49-53 | each counting loop appends that many cells of one file and keeps the checksum and position in step with the cells written |
| DiskCompaction.SkipUsedUp | java/9/src/Main.java:57-61 | the back index steps over used-up files and stops at a file with cells left, or at block i where nothing is pending any more |
| DiskCompaction.TakeStep | java/9/src/Main.java:65-69 | one free cell of block i filled from the last file keeps the written cells a prefix of the compacted disk |
| DiskCompaction.FreeDone | java/9/src/Main.java:56 | once block i's free space is used up, the rest is what compaction writes from block i + 1 on |
| DiskCompaction.NothingLeft | java/9/src/Main.java:62-64 | with the back index at block i nothing is left to write after it |
| DiskCompaction.FillFree | java/9/src/Main.java:55-70 | filling block i's free space from the back keeps checksum, position and written cells in step, and the cells written a prefix of the compacted disk |
| DiskCompaction.ProcessBlock | java/9/src/Main.java:47-71 | one turn of the outer loop writes block i's files and fills its free space, keeping the written cells a prefix of the compacted disk |
| DiskCompaction.RearrangedChecksum | java/9/src/Main.java:32-80 | the checksum of the disk compacted cell by cell from the back, corrected so that the back index skips every used-up or empty file and the current block is not counted twice; an empty map throws |
| DiskCompactionAsWritten.CountCells | java/9/src/Main.java:49-53 | a counting loop advances the position by the number of cells and leaves the back index alone |
| DiskCompactionAsWritten.FreeLoop | java/9/src/Main.java:55-70 | the free-space loop moves the back index only backwards and never past block i |
| DiskCompactionAsWritten.OuterLoop | java/9/src/Main.java:47-71 | the back index stays a block index throughout the outer loop |
| DiskCompactionAsWritten.FillFreeAsWritten | java/9/src/Main.java:55-70 | the free-space loop, statement by statement, ends in the state the loop function gives |
| DiskCompactionAsWritten.RearrangedChecksumAsWritten | java/9/src/Main.java:32-80 | the method as written computes the checksum the loop functions give |
| DiskCompactionAsWritten.TailCountsFileTwice | java/9/src/Main.java:62-77 | on the map "11111" the code as written gives 7, while the compacted disk's checksum is 4 |
| DiskCompactionAsWritten.EmptyFileCounted | java/9/src/Main.java:57-69 | on the map "02001" the code as written gives 1, while the compacted disk's checksum is 0 |
| DiskWholeFiles.LayoutChecksumSnoc | java/9/src/Main.java:101-123 | a file cell adds its position times its id, a free cell nothing |
| DiskWholeFiles.LayoutChecksumFree | java/9/src/Main.java:98-99 | free cells add nothing to the checksum |
| DiskWholeFiles.TrackedAll | java/9/src/Main.java:93-129 | once every block's file is in `usedFiles`, the layout holds each file exactly once, whole, at or before its own position |
| DiskWholeFiles.TrackedFree | java/9/src/Main.java:97-99 | skipping a moved file's cells as free keeps what the walk knows |
| DiskWholeFiles.TrackedPlace | java/9/src/Main.java:100-107 | placing a file not yet used, whole, at the end of the layout records it once |
| DiskWholeFiles.PlaceCells | java/9/src/Main.java:101-105 | the counting loops append that many cells of one file, keeping checksum and position in step |
| DiskWholeFiles.FillWithWholeFiles | java/9/src/Main.java:109-128 | moving files from the back into block i's free space keeps every used file placed once, whole, where it stands or in an earlier block's free space, and the layout plus the free space left reaches the next block's offset, checksum in step |
| DiskWholeFiles.PlaceBlock | java/9/src/Main.java:95-129 | one turn of the outer loop adds block i to the used files and advances the layout to the next block's offset, checksum in step |
| DiskWholeFiles.WholeFileChecksum | java/9/src/Main.java:82-132 | the checksum is that of a layout as long as the disk in which every file appears exactly once and whole, where it stands or moved into the free space of an earlier block |
| TopoMaps.KeepInRange | java/10/src/TopographicMap.java:33-40 | the filter keeps exactly the points inside the map, in order |
| TopoMaps.AdjacentPointsMembers | java/10/src/TopographicMap.java:29-40 | the adjacent points are exactly the four-neighbours inside the map, each listed once |
| TopoMaps.AdjacentPoints | java/10/src/TopographicMap.java:33-40 | the result holds exactly the four-neighbours of the point that lie inside the map |
| TopoMaps.PointsWithHeightMembers | java/10/src/TopographicMap.java:42-53 | the points listed are exactly those inside the map with that height, each once, in row-major order |
| TopoMaps.FindByHeight | java/10/src/TopographicMap.java:42-53 | the two loops over rows and columns list the points of that height row by row |
| HikingTrails.TrailHeights | java/10/src/RouteSearcher.java:33-43 | along a trail the heights rise by one per step from the bottom |
| HikingTrails.TrailsToAreTrails | java/10/src/RouteSearcher.java:27-45 | everything listed for a point is a hiking trail that ends there |
| HikingTrails.TrailsComplete | java/10/src/RouteSearcher.java:27-45 | every hiking trail that ends at or below the top is listed for its end point |
| HikingTrails.TrailsToDistinct | java/10/src/RouteSearcher.java:27-45 | no trail is listed twice |
| HikingTrails.ReachCounts | java/10/src/RouteSearcher.java:27-45 | a point's list holds each start point as often as there are trails from it to that point |
| HikingTrails.ReachSize | java/10/src/RouteSearcher.java:27-45 | the list at a point has one entry per trail to it |
| HikingTrails.TrailRating | java/10/src/RouteSearcher.java:27-45 | the list size is the number of distinct hiking trails ending at the point, which are exactly the trails from a bottom point climbing one per step |
| HikingTrails.TrailScore | java/10/src/RouteSearcher.java:27-53 | a start point is in the list exactly when some hiking trail leads from it to the point |
| RouteSearch.RouteSearcher.constructor | java/10/src/RouteSearcher.java:13-25 | one empty list per cell of the map |
| RouteSearch.RouteSearcher.MarkReachable | java/10/src/RouteSearcher.java:55-57 | the start point joins the end of that one cell's list, and every other cell stays as it was |
| RouteSearch.RouteSearcher.MarkAllReachable | java/10/src/RouteSearcher.java:41 | all of a list of start points join a neighbour's list, in order, and no other cell changes |
| RouteSearch.RouteSearcher.PassOn | java/10/src/RouteSearcher.java:34-43 | one point hands its list to each adjacent point exactly one higher and to no other |
| RouteSearch.RouteSearcher.MarkStartPoints | java/10/src/RouteSearcher.java:29 | on a fresh searcher each bottom point then lists exactly itself and every other list is empty |
| RouteSearch.RouteSearcher.PassOnLevel | java/10/src/RouteSearcher.java:33-44 | one pass of the level loop completes one more level |
| RouteSearch.RouteSearcher.ComputeReachability | java/10/src/RouteSearcher.java:27-45 | on a fresh searcher, each cell's list ends holding the start points that reach it, each once per trail |
| RouteSearch.RouteSearcher.GetReachableStartPoints | java/10/src/RouteSearcher.java:47-49 | the cell's list, or the lookup's exception outside the map; once computed it holds one entry per trail to the cell |
| RouteSearch.RouteSearcher.GetUniqueReachableStartPoints | java/10/src/RouteSearcher.java:51-53 | the set of the list's elements, or the exception outside the map; once computed, exactly the start points some trail leads from |
| PlutoStones.ToDecimal | java/11/src/PlutoStones.java:27 | `String.valueOf` of a natural is a nonempty string of decimal digits |
| PlutoStones.DecimalRoundTrip | java/11/src/PlutoStones.java:30-35 | `Long.parseLong` of what `String.valueOf` writes is the number again; a positive number's string has no leading zero |
| PlutoStones.ParseAppend | java/11/src/PlutoStones.java:33-34 | parsing a concatenation shifts the left part by the right part's length and adds the right part |
| PlutoStones.ParseBounds | java/11/src/PlutoStones.java:26-35 | k digits parse below 10^k, and to at least 10^(k-1) without a leading zero |
| PlutoStones.SplitDigitsHalves | java/11/src/PlutoStones.java:26-36 | an even-length number splits into a left half of exactly half the digits and a right half below 10^half, which together make the number |
| PlutoStones.CanSplitDigits | java/11/src/PlutoStones.java:26-28 | a number with an even count of digits has at least two and is at least 10, so both halves are nonempty; every two-digit number splits |
| PlutoStones.SplitDigits | java/11/src/PlutoStones.java:30-36 | two numbers, the left half times ten to the length of the right half plus the right half giving the number back; `PlutoStones.SplitDigitsHalves` pins the halves' sizes |
| PlutoStones.FirstRuleRewrites | java/11/src/PlutoStones.java:5-9 | the first applicable rule turns 0 into [1], an even-length number into its halves and anything else into n * 2024 |
| PlutoStones.RewriteLength | java/11/src/PlutoStones.java:5-9 | one stone becomes one or two stones |
| PlutoStones.BlinkLength | java/11/src/PlutoStones.java:11-24 | a blink keeps at least as many stones and at most twice as many |
| PlutoStones.BlinkAppend | java/11/src/PlutoStones.java:14-21 | a blink works stone by stone, so it keeps the order of the stones |
| PlutoStones.ApplyRules | java/11/src/PlutoStones.java:11-24 | for each stone in order the first rule that applies adds its stones: the result is one blink of the row |
| PlutoStones.IterateShift | java/11/src/Main.java:11-17 | the first of n blinks may be taken first |
| PlutoStones.ApplyRulesTimes | java/11/src/Main.java:11-17 | the loop blinks the row n times |
| StoneCounting.TotalNoBlinks | java/11/src/PlutoStonesEfficient.java:11-13 | with no blink left each stone counts one |
| StoneCounting.CountRewrite | java/11/src/PlutoStonesEfficient.java:24-33 | a stone's count is the count of what the rules make of it, one blink fewer, summed over split stones |
| StoneCounting.TotalAppend | java/11/src/Main.java:19-23 | the counts of two rows joined add up |
| StoneCounting.TotalBlink | java/11/src/PlutoStonesEfficient.java:24-33 | counting a row is counting the row after one blink, one blink fewer |
| StoneCounting.TotalIsLength | java/11/src/Main.java:11-23 | the summed count of a row is the length of the row blinked that many times |
| StoneCounting.CountIsLength | java/11/src/Main.java:11-23 | one stone's count is the number of stones that n blinks leave of it |
| StoneCounting.PlutoStonesEfficient.constructor | java/11/src/PlutoStonesEfficient.java:7 | the cache starts empty |
| StoneCounting.PlutoStonesEfficient.CountStonesAfterNIterations | java/11/src/PlutoStonesEfficient.java:9-22 | the result is the stone's count whatever the cache holds; the cache keeps its entries and every entry stays correct, so the cache never changes a result |
| StoneCounting.PlutoStonesEfficient.ApplyRules | java/11/src/PlutoStonesEfficient.java:24-33 | the count through the first rule that applies, one blink fewer, with the cache kept correct |
| StoneCounting.CountStones | java/11/src/Main.java:19-23 | the counts of all stones added up are the length of the row after n blinks |
| Garden.FreeSidesCount | java/12/src/main/java/org/example/RegionSidesIterator.java:62-78 | a side is free exactly when its neighbour is missing, so the free sides and the neighbours in the region make four |
| Garden.FreeSides | java/12/src/main/java/org/example/RegionSidesIterator.java:62-78 | a side is free exactly when the plot behind it is missing from the region; `Garden.FreeSidesCount` counts them as four minus the neighbours present |
| Garden.FreePiecesMembers | java/12/src/main/java/org/example/RegionSidesIterator.java:12 | the wall pieces are exactly the free sides of the region's plots |
| Garden.Coordinates | java/12/src/main/java/org/example/Vector.java:6-22 | a line and a position name a point exactly, and a step in the wall's direction moves one position on along the same line |
| Regions.PiecesOfPlot | java/12/src/main/java/org/example/RegionSidesIterator.java:12 | a plot has as many wall pieces as free sides |
| Regions.AddPlot | java/12/src/main/java/org/example/Region.java:12-17 | adding a plot adds its own pieces, which no other plot has |
| Regions.CalculatePerimeter | java/12/src/main/java/org/example/Region.java:10-19 | adding four minus the neighbours in the region for each plot gives the number of wall pieces, at most four per plot |
| Regions.CountSides | java/12/src/main/java/org/example/Region.java:21-29 | counting the walls the iterator returns gives the number of wall pieces where a side begins |
| RegionsBuilding.RegionsBuilder.NeighbourSymmetric | java/12/src/main/java/org/example/RegionsBuilder.java:61-67 | being a same-plant neighbour goes both ways |
| RegionsBuilding.RegionsBuilder.SameValueNeighbours | java/12/src/main/java/org/example/RegionsBuilder.java:61-67 | the result is exactly the in-range plots one step from the point along a row or column with the same plant, and never the point itself |
| RegionsBuilding.RegionsBuilder.AllPointsInRange | java/12/src/main/java/org/example/RegionsBuilder.java:69-71 | the map's plots are exactly the points in the inclusive square range from (0, 0) to the last row and column |
| RegionsBuilding.RegionsBuilder.ReachTransitive | java/12/src/main/java/org/example/RegionsBuilder.java:43-59 | plots reachable from a plot reachable from x are reachable from x |
| RegionsBuilding.RegionsBuilder.ReachSymmetric | java/12/src/main/java/org/example/RegionsBuilder.java:61-67 | reachability through same-plant neighbours goes both ways |
| RegionsBuilding.RegionsBuilder.ReachSameValue | java/12/src/main/java/org/example/RegionsBuilder.java:61-67 | plots reachable from each other lie in the map and grow the same plant |
| RegionsBuilding.RegionsBuilder.ComponentShared | java/12/src/main/java/org/example/RegionsBuilder.java:43-59 | plots reachable from each other have the same region |
| RegionsBuilding.RegionsBuilder.ComponentIsRegion | java/12/src/main/java/org/example/RegionsBuilder.java:34-36 | the plots reachable from a plot form a nonempty region, 4-connected and maximal, with that plot's plant |
| RegionsBuilding.RegionsBuilder.FillStart | java/12/src/main/java/org/example/RegionsBuilder.java:44-46 | the fill starts from reachable plots with the start's neighbours still to visit |
| RegionsBuilding.RegionsBuilder.FillAdd | java/12/src/main/java/org/example/RegionsBuilder.java:53-55 | a neighbour seen for the first time joins the area and its own neighbours join those to visit |
| RegionsBuilding.RegionsBuilder.FillSkip | java/12/src/main/java/org/example/RegionsBuilder.java:49-53 | a neighbour already in the area is dropped without losing anything |
| RegionsBuilding.RegionsBuilder.FillDone | java/12/src/main/java/org/example/RegionsBuilder.java:48-58 | with nothing left to visit the area is closed, so it is exactly the reachable plots |
| RegionsBuilding.RegionsBuilder.GetSameValueArea | java/12/src/main/java/org/example/RegionsBuilder.java:43-59 | the flood fill finds exactly the plots reachable from the start through same-plant neighbours |
| RegionsBuilding.RegionsBuilder.Build | java/12/src/main/java/org/example/RegionsBuilder.java:20-41 | the regions cover every plot of the map, do not overlap, and each is the region of every one of its plots, with their plant |
| RegionsBuilding.RegionsBuilder.NewRegion | java/12/src/main/java/org/example/RegionsBuilder.java:30-36 | the fill of a plot no region covers is a region that meets none of the earlier ones and stays in the map |
| RegionsBuilding.From | java/12/src/main/java/org/example/RegionsBuilder.java:11-18 | a builder for a nonempty map with its last row and column as the range's end; the empty map has no first row |
| RegionSides.Spread | java/12/src/main/java/org/example/RegionSidesIterator.java:35-39 | pieces made of whole walls that hold one piece of a run hold the whole run |
| RegionSides.WallInside | java/12/src/main/java/org/example/RegionSidesIterator.java:20-27 | the maximal wall through a remaining piece lies inside the remaining pieces |
| RegionSides.WallStarts | java/12/src/main/java/org/example/RegionSidesIterator.java:29-33 | a maximal wall holds exactly one piece where a side begins, its start |
| RegionSides.RemoveWallKeepsClosed | java/12/src/main/java/org/example/RegionSidesIterator.java:35-39 | removing a maximal wall leaves pieces made of whole walls |
| RegionSides.RemoveWallCountsOne | java/12/src/main/java/org/example/RegionSidesIterator.java:20-27 | removing a maximal wall leaves exactly one side fewer, so iteration ends |
| RegionSides.FindStart | java/12/src/main/java/org/example/RegionSidesIterator.java:51-60 | walking back from a remaining piece reaches a piece where a side begins, since a region is bounded |
| RegionSides.SidesRemain | java/12/src/main/java/org/example/RegionSidesIterator.java:15-18 | pieces remain exactly when sides remain |
| RegionSides.WalkEnds | java/12/src/main/java/org/example/RegionSidesIterator.java:55-59 | where the walk stops, the point one step back on the same line ends the run of pieces |
| RegionSides.WallDirection | java/12/src/main/java/org/example/WallPieceIterator.java:12-26 | the normalised direction from a wall's start to a later position is the direction along the side |
| RegionSides.RegionSidesIterator.constructor | java/12/src/main/java/org/example/RegionSidesIterator.java:10-13 | every free side of every plot becomes a piece, so all of the region's sides remain |
| RegionSides.RegionSidesIterator.Next | java/12/src/main/java/org/example/RegionSidesIterator.java:20-27 | a maximal wall of remaining pieces is returned and exactly its pieces leave, one side fewer remaining |
| RegionSides.RegionSidesIterator.GetContinuousWall | java/12/src/main/java/org/example/RegionSidesIterator.java:29-33 | the wall through the piece on its side cannot be made longer at either end |
| RegionSides.RegionSidesIterator.WallStart | java/12/src/main/java/org/example/RegionSidesIterator.java:41-44 | walking against the side's direction ends on the piece's line at the first piece of its run |
| RegionSides.RegionSidesIterator.WallEnd | java/12/src/main/java/org/example/RegionSidesIterator.java:46-49 | walking along the side's direction ends on the piece's line at the last piece of its run |
| RegionSides.RegionSidesIterator.FindLastPointInDirection | java/12/src/main/java/org/example/RegionSidesIterator.java:51-60 | the walk passes only points with that side free and returns the last of them, the one after it having no such piece |
| RegionSides.RegionSidesIterator.RemoveWallFromPieces | java/12/src/main/java/org/example/RegionSidesIterator.java:35-39 | the wall's pieces, from its start one step at a time to its end, and no others leave the set |
| RobotArithmetic.JavaRem | java/14/src/main/java/org/example/Simulation.java:31 | Java's `%` is smaller than the divisor in magnitude and takes the sign of the dividend |
| RobotArithmetic.PosMod | java/14/src/main/java/org/example/Simulation.java:30-32 | the result lies in [0, mod) for a positive modulus and in (mod, 0] for a negative one; `RobotArithmetic.PosModIsMod` proves it is the mathematical modulus |
| RobotArithmetic.PosModIsMod | java/14/src/main/java/org/example/Simulation.java:30-32 | for a positive modulus `posMod` is the mathematical modulus, so it lies in [0, mod) |
| RobotArithmetic.ModShift | java/14/src/main/java/org/example/Simulation.java:27 | adding after wrapping wraps to the same place as wrapping the sum |
| RobotSimulation.Advance | java/14/src/main/java/org/example/Simulation.java:26-28 | the robot keeps its velocity and, on a grid of positive size, lands on the grid; `RobotSimulation.AdvanceAdds` proves that advancing twice adds the seconds |
| RobotSimulation.AdvanceAll | java/14/src/main/java/org/example/Simulation.java:19 | every robot is replaced by its advanced self, so the number of robots is kept |
| RobotSimulation.AdvanceInGrid | java/14/src/main/java/org/example/Simulation.java:26-28 | after any move a robot is on the grid and keeps its velocity |
| RobotSimulation.WrapTwice | java/14/src/main/java/org/example/Simulation.java:26-32 | wrapping after a moves and again after b more is wrapping after a + b moves |
| RobotSimulation.AdvanceAdds | java/14/src/main/java/org/example/Simulation.java:26-28 | moving a robot a seconds and then b more is moving it a + b seconds |
| RobotSimulation.RewindRestores | java/14/src/main/java/org/example/Simulation.java:18-28 | going back as many seconds as forward returns a robot that started on the grid to where it was |
| RobotSimulation.AdvanceAllAdds | java/14/src/main/java/org/example/Simulation.java:18-20 | `fastForward(a)` then `fastForward(b)` is `fastForward(a + b)` for every robot |
| RobotSimulation.RewindAllRestores | java/14/src/main/java/org/example/Simulation.java:18-24 | `rewind(n)` after `fastForward(n)` restores robots that started on the grid |
| RobotSimulation.AdvanceAllInGrid | java/14/src/main/java/org/example/Simulation.java:18-28 | after any move every robot is on the grid |
| RobotSimulation.CountsCells | java/14/src/main/java/org/example/Simulation.java:56-60 | every cell of the counted map holds the number of robots standing on it |
| RobotSimulation.CountsSum | java/14/src/main/java/org/example/Simulation.java:46-63 | the counts of the map add up to the number of robots |
| RobotSimulation.Simulation.constructor | java/14/src/main/java/org/example/Simulation.java:12-16 | the simulation holds the given size and robots |
| RobotSimulation.Simulation.FastForward | java/14/src/main/java/org/example/Simulation.java:18-20 | the robots are replaced, in place, by themselves moved `seconds` further |
| RobotSimulation.Simulation.Rewind | java/14/src/main/java/org/example/Simulation.java:22-24 | the robots are replaced by themselves moved `seconds` back |
| RobotSimulation.Simulation.CurrentMap | java/14/src/main/java/org/example/Simulation.java:46-63 | a height-by-width map whose every cell holds the number of robots on it, the cells adding up to the number of robots |

## Left out

General:

- Every `main` function, file and standard-input reading, and all printing are left out, because they are I/O. The models take the puzzle input as already-read lines or values.
- The regular-expression parsers of java/3 and rust/17/src/parse.rs are left out, because they are driven by a regex library that is not part of this model.
- The line parsers of rust/15/src/parser.rs, rust/16/src/parser.rs and rust/18/src/parse.rs are left out. Their character mapping is covered by `Warehouses.FieldFrom`, `RaceTrack.ParseField` and the typed inputs.
- rust/23, and the graph code of rust/24/src/main.rs and rust/24/src/parser.rs, are left out. They are built on a graph library that is not part of this model.
- java/13 is left out, because it computes with doubles and `Math.round`.
- The duplicate Java solutions of days 1 and 2, java/8's antinode code and java/6's `Area` queries are left out. This covers `addObstacle`, `removeObstacle`, `findNextObstacle`, `isStuckInLoop` and `isAdjacent`.
- `rayon`'s `par_iter` (rust/22), and `ConcurrentHashMap` with `parallelStream` (java/11), are modelled sequentially. The parallelism does not change the results.
- The iteration order of Rust `HashSet` and `HashMap`, and of Java `HashSet`, is not modelled. The models choose an arbitrary element where the source takes "the next" one, and the contracts hold for every order.
- The A* and A*-bag library calls of rust/16/src/main.rs and rust/18/src/main.rs are not part of this model.
  - For rust/18, a breadth-first search stands in for the library call in `part_one` and `part_two`, and is proved to give shortest paths.
  - For rust/16, only the neighbour and edge-cost functions the library is handed are modelled. The lowest total cost and the tiles on best paths are not.
- rust/17's `part_two` and `run_with_register_a` are left out. They run the machine without a bound, so they would need a step bound (fuel) that the source does not have.
- The test cases that run a whole puzzle input are not restated as lemmas, because evaluating them on literal inputs exceeds the verifier's resource budget. These are:
  - the java/12 sample answers 1930 and 1206, and the side counts of RegionSidesTests;
  - the RegionsBuilderTests grids;
  - rust/20's 285 cheats and the sample start and end positions;
  - rust/21's `A` to `<` costs of 4 and 10, and the brute-force press counts of the test codes, such as 68 for `029A`;
  - rust/25's sample count of 3.
  - The smaller tests of the same files are stated, for example `KeypadCosts.CostThreeLayersToRight`, `RaceCheats.StepsSavedExamples`, `Towels.CountTwoWaysExample` and `LocationLists.SampleSimilarity`.

Integer widths:

- Java `int` and `long` overflow is not modelled in java/4, java/5, java/6, java/7, java/8, java/9, java/10, java/11, java/12 and java/14. Their integers are unbounded. This includes the stone value `n * 2024` of java/11, the checksums of java/9, `x + s * v` in java/14's fast-forward, and the point arithmetic of java/4, java/6, java/8 and java/12.
- Rust integers are unbounded in rust/1, rust/2, rust/15, rust/16, rust/18, rust/19, rust/20, rust/21 and rust/25. This includes rust/15's GPS score `100 * row + col` and the `u8` column heights of rust/25. The exception is where the source guards `usize` against underflow: those neighbour computations are modelled as checked subtractions.
- KeypadUtils.Distance: does not model the `isize::try_from(..).unwrap()` conversions of rust/21's `distance`, which panic only on coordinates above `isize::MAX`, nor `usize` overflow in `add`; points are unbounded naturals.
- The `u64` arithmetic of rust/17 and rust/22 is modelled with its bounds.
- Secrets.NextSecret: requires `NoOverflow`, a seed below 2^58, because `secret * 64` panics on overflow in a debug build (and wraps in a release build). Only the seed is affected: every later secret is below 2^24.
- Secrets.Iterate: has the same requirement on the seed.
- Secrets.SecretStream: has the same requirement on the seed.
- Secrets.SecretsAt: has the same requirement on the seed.
- Secrets.IterateShift: has the same requirement on the seed.
- Secrets.SecretsPrefix: has the same requirement on the seed.
- Prices.PriceStream: has the same requirement on the seed.
- Prices.PriceChanges: has the same requirement on the seed.
- Prices.PriceChangeAt: has the same requirement on the seed.
- Prices.PricesPrefix: has the same requirement on the seed.
- MonkeyMarket.BuyerSum: has the same requirement on every buyer's seed.
- MonkeyMarket.BuyerLookups: has the same requirement on every buyer's seed.
- MonkeyMarket.SumAtIsBuyerSum: has the same requirement on every buyer's seed.
- MonkeyMarket.EfficientOptimumSequence: has the same requirement on every buyer's seed.

Per member:

- Towels.CountComposabilityRec: requires that no towel is the empty string. With an empty towel `count_composability_rec` recurses on the same design forever.
- Towels.CountComposability: has the same requirement.
- Towels: designs and towels are sequences of characters. rust/19 slices them by byte (`design.len()`, `&design[..i]`), which is the same for ASCII designs and would panic inside a multi-byte character; that panic is not modelled.
- DiskMap.ReadInput: refuses characters outside ASCII and the negative values `getNumericValue` gives, rather than modelling them. Java's `getNumericValue` also gives values for other Unicode digits, numerals and fullwidth letters, which the disk map would then accept.
- RaceTrack.FindTrack: takes a step bound. The `loop` of `find_track` does not end on a track that closes into a cycle. The outcome `OutOfFuel` is the model's own and has no counterpart in the source.
- Guards.Guard.Step: requires that some quarter turn is free. `Guards.Area.NeverFree` shows that otherwise the turning loop of `turnBeforeObstacles` never ends.
- Guards.Guard.TurnBeforeObstacles: has the same requirement.
- java/6's `Area` is modelled as an immutable value, the `Guards.Area` datatype, because the guard's step only reads it.
- PatternMatching.PatternMatcher.Matches: requires every row to be at least as long as the first (`Readable`). Java's `charAt` would otherwise throw on a ragged table.
- PatternMatching.PatternMatcher.FindMatches: has the same requirement.
- RegionsBuilding.RegionsBuilder.GetSameValueArea: requires every row to be at least as long as the first (`Readable`). On a ragged grid Java's `values.get(row).get(col)` in `getValue` (RegionsBuilder.java:73-75) would throw; the model does not cover that exception.
- RegionsBuilding.RegionsBuilder.Build: has the same requirement.
- RegionsBuilding.RegionsBuilder.SameValueNeighbours: has the same requirement.
- Main.java's pattern building for java/4 is left out.
- Warehouses.Shaped: the property lemmas about the warehouse are proved for rectangular warehouses only. These are the frame, swap, count, GPS, shift and pairing lemmas of `Warehouses`, `WarehouseSimulation` and `WarehousePushes`, for example `WarehouseSimulation.MovedFrame`, `WarehouseSimulation.RobotMoveKeepsRobot` and `WarehousePushes.RobotMoveKeepsPairs`. The operations themselves accept every warehouse `Warehouse::new` builds. A row shorter than the first gives the panic result of `Warehouses.NextInDirection`, `WarehouseSimulation.CanMove`, `WarehouseSimulation.Pushed`, `WarehouseSimulation.Moved`, `WarehouseSimulation.RobotMove`, `Warehouses.Gps`, `Warehouses.Warehouse.Set` and the `Simulation` methods. A longer row runs; its fields beyond the first row's width lie outside every in-range point, and `Warehouses.GpsTrim` shows that they do not change the score.
- Warehouses.Write: requires the written cell to exist. The `IndexMut` panic on a missing cell is modelled by `Warehouses.Warehouse.Set`, which then fails and changes nothing.
- RobotSimulation.Simulation.FastForward: requires a nonzero width and height, because `posMod` divides by them.
- RobotSimulation.Simulation.Rewind: has the same requirement.
- RobotSimulation.Simulation.CurrentMap: requires every robot to stand in the grid, where the source's `List.get` would otherwise throw.
- java/14's quadrant counting in Main.java is left out.
- Robot.java of java/14 is not part of this model. The robot record, a position and a velocity, is reconstructed from its uses in Simulation.java.
- RegionSides.RegionSidesIterator.Next: requires a remaining piece. Java's `next` on an exhausted iterator would throw.
- Side.java and WallPiece.java of java/12 are not part of this model. Their records are reconstructed from their uses.
- WallPieceIterator's walk is folded into `RegionSides.RegionSidesIterator.RemoveWallFromPieces`.
- The members of `TopoMaps` require the map's rows to fit the height and width handed to the TopographicMap.java constructor (`Fits`). The constructor trusts its caller and checks nothing, and `heightAt` would throw on a map that does not fit.
- DiskWholeFiles.WholeFileChecksum: does not state which free space the greedy back-to-front choice picks. It states only that the layout counted is valid: each file appears once, whole, in its own place or in an earlier block's free space.
- DiskWholeFiles.FillWithWholeFiles: has the same restriction.
- Calibration.Solver.IsSolvable: the operators are functions handed in by the caller, as the Java `BinaryOperator`s are. Their arithmetic, such as `+`, `*` and concatenation, is not modelled beyond that.

## Findings

| source | as written | input that shows it | evidently intended | confidence | as-written member | corrected member |
|---|---|---|---|---|---|---|
| java/9/src/Main.java:62-77 | when the back index reaches the current block, the free-space loop breaks without marking that block's file as already written, so the tail loop counts the file a second time after the front has passed it | disk map "11111": the code gives 7 | 4, the checksum of the compacted disk 0, 2, 1 | not executed | DiskCompactionAsWritten.TailCountsFileTwice | DiskCompaction.RearrangedChecksum |
| java/9/src/Main.java:57-69 | the back index steps back over one used-up file only, so an empty file it lands on is never skipped and a free cell is counted with that file's id | disk map "02001": the code gives 1 | 0, the checksum of the compacted disk with file 2 moved to position 0 | not executed | DiskCompactionAsWritten.EmptyFileCounted | DiskCompaction.RearrangedChecksum |
