/** The race itself (rust/20/src/main.rs and rust/20/src/parse_inputs.rs):
  reading the map, walking the single track from start to end, and numbering
  its points. */
module RaceTrack {
  import opened Wrappers
  import opened RaceMapGrid

  /** The points of `s` other than `x`, in order (`Vec::retain`). */
  function Without(s: seq<Point>, x: Point): (r: seq<Point>)
    ensures |r| <= |s|
    ensures forall q :: q in r <==> q in s && q != x
  {
    if |s| == 0 then []
    else if s[0] == x then Without(s[1..], x)
    else [s[0]] + Without(s[1..], x)
  }

  /** The track neighbours of `current` other than the point just left. */
  function ForwardNeighbours(m: RaceMap, prev: Option<Point>, current: Point): (r: Result<seq<Point>>)
    ensures r.Err? <==> NeighbourTracks(m, current).Err?
    ensures r.Ok? ==> forall q :: q in r.value <==>
      Adjacent(current, q) && IsTrack(m, q) && (prev.Some? ==> q != prev.value)
  {
    var ns := NeighbourTracks(m, current);
    if ns.Err? then ns
    else if prev.Some? then Ok(Without(ns.value, prev.value))
    else ns
  }

  /** The point before the last one of a walk, if any. */
  function Prev(t: seq<Point>): Option<Point>
  {
    if |t| >= 2 then Some(t[|t| - 2]) else None
  }

  /** Step `i` of a walk is forced: the only way forward from `t[i]` is
    `t[i + 1]`. */
  predicate StepAt(m: RaceMap, t: seq<Point>, i: nat)
    requires i + 1 < |t|
  {
    ForwardNeighbours(m, if i == 0 then None else Some(t[i - 1]), t[i]) == Ok([t[i + 1]])
  }

  predicate Walk(m: RaceMap, t: seq<Point>)
  {
    forall i :: 0 <= i < |t| - 1 ==> StepAt(m, t, i)
  }

  /** What a forced step means: the next point is an adjacent track cell, it
    is not the point just left, and it is the only such cell. */
  lemma StepAtMeans(m: RaceMap, t: seq<Point>, i: nat)
    requires i + 1 < |t| && StepAt(m, t, i)
    ensures Adjacent(t[i], t[i + 1]) && IsTrack(m, t[i + 1])
    ensures i > 0 ==> t[i + 1] != t[i - 1]
    ensures forall q :: Adjacent(t[i], q) && IsTrack(m, q) && (i > 0 ==> q != t[i - 1]) ==> q == t[i + 1]
  {
    assert t[i + 1] in [t[i + 1]];
  }

  lemma WalkExtend(m: RaceMap, t: seq<Point>, next: Point)
    requires |t| >= 1 && Walk(m, t)
    requires ForwardNeighbours(m, Prev(t), t[|t| - 1]) == Ok([next])
    ensures Walk(m, t + [next])
  {
    var u := t + [next];
    forall i | 0 <= i < |u| - 1
      ensures StepAt(m, u, i)
    {
      if i < |t| - 1 {
        assert StepAt(m, t, i);
      }
    }
  }

  /** How `find_track` ends: at the end point, at a point without exactly one
    way forward ("Found n neighbours"), at an index panic, or, in the model
    only, when the step budget runs out. */
  datatype TrackOutcome = Reached | Stuck(found: nat) | OutOfBounds | OutOfFuel

  /** `find_track`: from the start, repeatedly move to the single track
    neighbour that is not the previous point, until the end is reached. On a
    track that runs in a circle the source never stops; the model stops after
    `fuel` steps. */
  method FindTrack(m: RaceMap, start: Point, end: Point, fuel: nat) returns (track: seq<Point>, outcome: TrackOutcome)
    ensures |track| >= 1 && track[0] == start && Walk(m, track)
    ensures forall i :: 0 <= i < |track| - 1 ==> track[i] != end
    ensures outcome == Reached <==> track[|track| - 1] == end
    ensures outcome.Stuck? ==> (outcome.found != 1 &&
      ForwardNeighbours(m, Prev(track), track[|track| - 1]).Ok? &&
      |ForwardNeighbours(m, Prev(track), track[|track| - 1]).value| == outcome.found)
    ensures outcome == OutOfBounds ==> ForwardNeighbours(m, Prev(track), track[|track| - 1]).Err?
    ensures outcome == OutOfFuel ==> |track| == fuel + 1
  {
    track := [start];
    var prev: Option<Point> := None;
    var current := start;
    while current != end
      invariant |track| >= 1 && track[0] == start && track[|track| - 1] == current && prev == Prev(track)
      invariant Walk(m, track)
      invariant forall i :: 0 <= i < |track| - 1 ==> track[i] != end
      invariant |track| <= fuel + 1
      decreases fuel + 1 - |track|
    {
      if |track| == fuel + 1 {
        return track, OutOfFuel;
      }
      var neighbours := NeighbourTracks(m, current);
      if neighbours.Err? {
        return track, OutOfBounds;
      }
      var forward := if prev.Some? then Without(neighbours.value, prev.value) else neighbours.value;
      if |forward| != 1 {
        return track, Stuck(|forward|);
      }
      assert forward == [forward[0]];
      WalkExtend(m, track, forward[0]);
      prev := Some(current);
      current := forward[0];
      track := track + [current];
    }
    outcome := Reached;
  }

  /** `map_to_index`: each point to its position in the track; a repeated
    point keeps its last position, as inserting into the hash map
    overwrites. */
  function MapToIndex(track: seq<Point>): (m: map<Point, nat>)
    ensures forall p :: p in m <==> p in track
    ensures forall p :: p in m ==> m[p] < |track| && track[m[p]] == p
    ensures forall p, j :: p in m && m[p] < j < |track| ==> track[j] != p
  {
    if |track| == 0 then map[]
    else MapToIndex(track[..|track| - 1])[track[|track| - 1] := |track| - 1]
  }

  /** On a track without repeated points (as a forced walk ending at its end
    point is), every point maps to its own position. */
  lemma MapToIndexDistinct(track: seq<Point>, i: nat)
    requires forall a, b :: 0 <= a < b < |track| ==> track[a] != track[b]
    requires i < |track|
    ensures MapToIndex(track)[track[i]] == i
  {
    var m := MapToIndex(track);
    assert track[i] in m;
  }

  /** `parse_input`'s character table. */
  function ParseField(c: char): (r: Option<Field>)
    ensures r == Some(Wall) <==> c == '#'
    ensures r == Some(Track) <==> c == '.' || c == 'S' || c == 'E'
  {
    match c
    case '#' => Some(Wall)
    case '.' => Some(Track)
    case 'S' => Some(Track)
    case 'E' => Some(Track)
    case _ => None
  }

  predicate At(lines: seq<string>, p: Point, c: char)
  {
    p.row < |lines| && p.col < |lines[p.row]| && lines[p.row][p.col] == c
  }

  predicate ValidLines(lines: seq<string>)
  {
    forall i, j :: 0 <= i < |lines| && 0 <= j < |lines[i]| ==> ParseField(lines[i][j]).Some?
  }

  /** Every cell before `row`, `col` in reading order parses. */
  predicate ValidUpTo(lines: seq<string>, row: nat, col: nat)
  {
    forall i, j :: 0 <= i < |lines| && 0 <= j < |lines[i]| && Before(Point(i, j), row, col) ==>
      ParseField(lines[i][j]).Some?
  }

  /** `q` comes before row `row`, column `col` in reading order. */
  predicate Before(q: Point, row: nat, col: nat)
  {
    q.row < row || (q.row == row && q.col < col)
  }

  /** `p` holds `c` and no later cell in reading order does. */
  ghost predicate LastAt(lines: seq<string>, p: Point, c: char)
  {
    At(lines, p, c) && forall q :: At(lines, q, c) ==> q == p || Before(q, p.row, p.col)
  }

  ghost predicate Occurs(lines: seq<string>, c: char)
  {
    exists p :: At(lines, p, c)
  }

  /** The fields of a valid line. */
  predicate RowOf(line: string, fields: seq<Field>)
  {
    |fields| == |line| && forall j :: 0 <= j < |line| ==> ParseField(line[j]) == Some(fields[j])
  }

  /** What has been read of the cells before `row`, `col`: `found` is the
    last cell holding `c`, or None if there is none. */
  ghost predicate LastSoFar(lines: seq<string>, found: Option<Point>, c: char, row: nat, col: nat)
  {
    (found.None? ==> forall q :: Before(q, row, col) ==> !At(lines, q, c)) &&
    (found.Some? ==> (At(lines, found.value, c) && Before(found.value, row, col) &&
      forall q :: At(lines, q, c) && Before(q, row, col) ==> q == found.value || Before(q, found.value.row, found.value.col)))
  }

  /** Reading the cell at `row`, `col` keeps `found` the last `c` so far. */
  lemma LastSoFarStep(lines: seq<string>, found: Option<Point>, c: char, row: nat, col: nat)
    requires row < |lines| && col < |lines[row]| && LastSoFar(lines, found, c, row, col)
    ensures LastSoFar(lines, if lines[row][col] == c then Some(Point(row, col)) else found, c, row, col + 1)
  {
  }

  /** After the last cell of a row, the next row starts. */
  lemma LastSoFarRow(lines: seq<string>, found: Option<Point>, c: char, row: nat)
    requires row < |lines| && LastSoFar(lines, found, c, row, |lines[row]|)
    ensures LastSoFar(lines, found, c, row + 1, 0)
  {
  }

  /** After the last row, `found` is the last `c` of all, if any. */
  lemma LastSoFarDone(lines: seq<string>, found: Option<Point>, c: char)
    requires LastSoFar(lines, found, c, |lines|, 0)
    ensures found.None? <==> !Occurs(lines, c)
    ensures found.Some? ==> LastAt(lines, found.value, c)
  {
    if found.Some? {
      assert At(lines, found.value, c);
    }
  }

  lemma ValidUpToStep(lines: seq<string>, row: nat, col: nat)
    requires row < |lines| && col < |lines[row]| && ValidUpTo(lines, row, col)
    requires ParseField(lines[row][col]).Some?
    ensures ValidUpTo(lines, row, col + 1)
  {
  }

  lemma ValidUpToRow(lines: seq<string>, row: nat)
    requires row < |lines| && ValidUpTo(lines, row, |lines[row]|)
    ensures ValidUpTo(lines, row + 1, 0)
  {
  }

  /** `parse_input`: every character is mapped to a field; the last 'S' and
    the last 'E' give start and end. A bad character stops the parse; then
    an empty map panics in `RaceMap::new`, before the missing start or end
    is reported. */
  method ParseInput(lines: seq<string>) returns (r: Result<(RaceMap, Point, Point)>)
    ensures !ValidLines(lines) ==> r == Err("Could not parse field")
    ensures ValidLines(lines) && |lines| == 0 ==> r == Err("Race map has at least one row")
    ensures ValidLines(lines) && |lines| > 0 && !Occurs(lines, 'S') ==> r == Err("Could not find start point")
    ensures ValidLines(lines) && |lines| > 0 && Occurs(lines, 'S') && !Occurs(lines, 'E') ==>
      r == Err("Could not find end point")
    ensures r.Ok? <==> ValidLines(lines) && |lines| > 0 && Occurs(lines, 'S') && Occurs(lines, 'E')
    ensures r.Ok? ==> r.value.0.height == |lines| && r.value.0.width == |lines[0]| && |r.value.0.rows| == |lines|
    ensures r.Ok? ==> forall i :: 0 <= i < |lines| ==> RowOf(lines[i], r.value.0.rows[i])
    ensures r.Ok? ==> LastAt(lines, r.value.1, 'S') && LastAt(lines, r.value.2, 'E')
  {
    var start: Option<Point> := None;
    var end: Option<Point> := None;
    var rows: seq<seq<Field>> := [];
    for row := 0 to |lines|
      invariant |rows| == row && forall i :: 0 <= i < row ==> RowOf(lines[i], rows[i])
      invariant ValidUpTo(lines, row, 0)
      invariant LastSoFar(lines, start, 'S', row, 0) && LastSoFar(lines, end, 'E', row, 0)
    {
      var line := lines[row];
      var fields: seq<Field> := [];
      for col := 0 to |line|
        invariant |fields| == col && forall j :: 0 <= j < col ==> ParseField(line[j]) == Some(fields[j])
        invariant ValidUpTo(lines, row, col)
        invariant LastSoFar(lines, start, 'S', row, col) && LastSoFar(lines, end, 'E', row, col)
      {
        var c := line[col];
        LastSoFarStep(lines, start, 'S', row, col);
        LastSoFarStep(lines, end, 'E', row, col);
        if c == 'S' {
          start := Some(Point(row, col));
        } else if c == 'E' {
          end := Some(Point(row, col));
        }
        var field := ParseField(c);
        if field.None? {
          assert ParseField(lines[row][col]).None?;
          return Err("Could not parse field");
        }
        ValidUpToStep(lines, row, col);
        fields := fields + [field.value];
      }
      LastSoFarRow(lines, start, 'S', row);
      LastSoFarRow(lines, end, 'E', row);
      ValidUpToRow(lines, row);
      rows := rows + [fields];
    }
    LastSoFarDone(lines, start, 'S');
    LastSoFarDone(lines, end, 'E');
    if |rows| == 0 {
      return Err("Race map has at least one row");
    }
    var map_ := RaceMap(rows, |rows[0]|, |rows|);
    if start.None? {
      return Err("Could not find start point");
    }
    if end.None? {
      return Err("Could not find end point");
    }
    r := Ok((map_, start.value, end.value));
  }
}
