/** Cheats on the race track (rust/20/src/cheat.rs and the counting in
  rust/20/src/main.rs). A track maps each of its points to its position along
  the race; a cheat jumps from one track point to a later one through walls. */
module RaceCheats {
  import opened Wrappers
  import opened RaceMapGrid

  datatype Cheat = Cheat(from: Point, to: Point)

  /** The cheats of at most `length` steps from `from`: to a different track
    point further along the race. */
  function CheatsFrom(track: map<Point, nat>, from: Point, length: nat): set<Cheat>
    requires from in track
  {
    set q | q in track && q != from && track[q] > track[from] && StepDistance(from, q) <= length :: Cheat(from, q)
  }

  /** `cheatcodes`: the points within `length` steps, then the filters
    "different", "on the track" and "later on the track". The position of
    `from` is unwrapped only once a candidate reaches the last filter, so a
    `from` off the track panics only then. */
  method Cheatcodes(track: map<Point, nat>, from: Point, length: nat) returns (r: Result<set<Cheat>>)
    ensures r.Err? <==> from !in track && exists q :: q in track && q != from && StepDistance(from, q) <= length
    ensures r.Ok? && from in track ==> r.value == CheatsFrom(track, from, length)
    ensures r.Ok? && from !in track ==> r.value == {}
  {
    var points := PointsWithinStepDistance(from, length);
    var candidates := set q | q in points && q != from && q in track;
    if candidates != {} && from !in track {
      var q :| q in candidates;
      return Err("called `Option::unwrap()` on a `None` value");
    }
    if from !in track {
      assert forall q :: q in track && q != from && StepDistance(from, q) <= length ==> q in candidates;
      return Ok({});
    }
    r := Ok(set q | q in candidates && track[q] > track[from] :: Cheat(from, q));
  }

  /** `steps_saved`: both ends must be on the track; the saving is the
    distance along the track minus the cheat's own steps, if neither
    unsigned subtraction underflows. */
  function StepsSaved(track: map<Point, nat>, cheat: Cheat): (r: Result<Option<nat>>)
    ensures r.Err? <==> cheat.from !in track || cheat.to !in track
    ensures r.Ok? ==>
      (r.value.Some? <==> track[cheat.from] + StepDistance(cheat.from, cheat.to) <= track[cheat.to])
    ensures r.Ok? && r.value.Some? ==>
      track[cheat.from] + StepDistance(cheat.from, cheat.to) + r.value.value == track[cheat.to]
  {
    if cheat.from !in track || cheat.to !in track then
      Err("Can only calculate saved steps for cheats belonging to a track")
    else
      var from := track[cheat.from];
      var to := track[cheat.to];
      var cheating := StepDistance(cheat.from, cheat.to);
      if to < from then Ok(None)
      else if to - from < cheating then Ok(None)
      else Ok(Some(to - from - cheating))
  }

  /** The track of the cheat tests: an S-shaped run of eight points. */
  function SimpleTrack(): map<Point, nat>
  {
    map[Point(0, 0) := 0, Point(0, 1) := 1, Point(1, 1) := 2, Point(1, 2) := 3,
        Point(2, 2) := 4, Point(3, 2) := 5, Point(3, 1) := 6, Point(3, 0) := 7]
  }

  /** The saving tests: (1,1) to (3,1) and (1,1) to (3,0) both save 2. */
  lemma StepsSavedExamples()
    ensures StepsSaved(SimpleTrack(), Cheat(Point(1, 1), Point(3, 1))) == Ok(Some(2))
    ensures StepsSaved(SimpleTrack(), Cheat(Point(1, 1), Point(3, 0))) == Ok(Some(2))
  {
  }

  /** The cheat test of length 2: three cheats from (1,1). */
  lemma CheatsFromShortExample()
    ensures CheatsFrom(SimpleTrack(), Point(1, 1), 2)
      == {Cheat(Point(1, 1), Point(3, 1)), Cheat(Point(1, 1), Point(1, 2)), Cheat(Point(1, 1), Point(2, 2))}
  {
    var t := SimpleTrack();
    var from := Point(1, 1);
    var expected := {Cheat(from, Point(3, 1)), Cheat(from, Point(1, 2)), Cheat(from, Point(2, 2))};
    assert t.Keys == {Point(0, 0), Point(0, 1), Point(1, 1), Point(1, 2), Point(2, 2), Point(3, 2), Point(3, 1), Point(3, 0)};
    forall c | c in CheatsFrom(t, from, 2)
      ensures c in expected
    {
      assert c.to in t.Keys;
    }
    forall c | c in expected
      ensures c in CheatsFrom(t, from, 2)
    {
      assert c.to in t.Keys;
    }
  }

  /** The cheat test of length 3: four cheats from (0,1). */
  lemma CheatsFromLongExample()
    ensures CheatsFrom(SimpleTrack(), Point(0, 1), 3)
      == {Cheat(Point(0, 1), Point(1, 1)), Cheat(Point(0, 1), Point(1, 2)),
          Cheat(Point(0, 1), Point(2, 2)), Cheat(Point(0, 1), Point(3, 1))}
  {
    var t := SimpleTrack();
    var from := Point(0, 1);
    var expected := {Cheat(from, Point(1, 1)), Cheat(from, Point(1, 2)), Cheat(from, Point(2, 2)), Cheat(from, Point(3, 1))};
    assert t.Keys == {Point(0, 0), Point(0, 1), Point(1, 1), Point(1, 2), Point(2, 2), Point(3, 2), Point(3, 1), Point(3, 0)};
    forall c | c in CheatsFrom(t, from, 3)
      ensures c in expected
    {
      var q := c.to;
      assert q in t.Keys && q != Point(0, 0) && q != Point(0, 1) && q != Point(3, 2) && q != Point(3, 0);
    }
    assert StepDistance(from, Point(3, 1)) == 3 && StepDistance(from, Point(2, 2)) == 3;
  }

  /** A cheat from a track point that saves at least `minSaved` steps. */
  predicate Saves(track: map<Point, nat>, length: nat, minSaved: nat, c: Cheat)
  {
    c.from in track && c in CheatsFrom(track, c.from, length) &&
    track[c.from] + StepDistance(c.from, c.to) + minSaved <= track[c.to]
  }

  /** Every cheat of the track that saves at least `minSaved` steps. */
  function SavingCheats(track: map<Point, nat>, length: nat, minSaved: nat): set<Cheat>
  {
    set f, t | f in track && t in track && Saves(track, length, minSaved, Cheat(f, t)) :: Cheat(f, t)
  }

  predicate Distinct(cs: seq<Cheat>)
  {
    forall i, j :: 0 <= i < j < |cs| ==> cs[i] != cs[j]
  }

  /** `cheats_savings`: over every track point, the savings of the cheats
    from it that have one. The ghost `cheats` names the cheat behind each
    saving; the order of both follows the hash maps' and is left open. */
  method CheatsSavings(track: map<Point, nat>, length: nat) returns (saved: seq<nat>, ghost cheats: seq<Cheat>)
    ensures |cheats| == |saved| && Distinct(cheats)
    ensures forall c :: c in cheats <==> Saves(track, length, 0, c)
    ensures forall k :: 0 <= k < |cheats| ==> StepsSaved(track, cheats[k]) == Ok(Some(saved[k]))
  {
    saved := [];
    cheats := [];
    var todo := track.Keys;
    while todo != {}
      invariant todo <= track.Keys
      invariant |cheats| == |saved| && Distinct(cheats)
      invariant forall c :: c in cheats <==> Saves(track, length, 0, c) && c.from !in todo
      invariant forall k :: 0 <= k < |cheats| ==> StepsSaved(track, cheats[k]) == Ok(Some(saved[k]))
      decreases |todo|
    {
      var point :| point in todo;
      var found := Cheatcodes(track, point, length);
      var rest := found.value;
      while rest != {}
        invariant rest <= found.value
        invariant |cheats| == |saved| && Distinct(cheats)
        invariant forall c :: c in cheats <==>
          Saves(track, length, 0, c) && (c.from !in todo || (c in found.value && c !in rest))
        invariant forall k :: 0 <= k < |cheats| ==> StepsSaved(track, cheats[k]) == Ok(Some(saved[k]))
        decreases |rest|
      {
        var c :| c in rest;
        var s := StepsSaved(track, c);
        if s.value.Some? {
          saved := saved + [s.value.value];
          cheats := cheats + [c];
        }
        rest := rest - {c};
      }
      todo := todo - {point};
    }
  }

  /** How many of `saved` are at least `minSaved`. */
  function CountAtLeast(saved: seq<nat>, minSaved: nat): nat
  {
    if |saved| == 0 then 0
    else CountAtLeast(saved[..|saved| - 1], minSaved) + (if saved[|saved| - 1] >= minSaved then 1 else 0)
  }

  /** The cheats behind the savings of at least `minSaved`. */
  function CheatsAtLeast(saved: seq<nat>, cheats: seq<Cheat>, minSaved: nat): set<Cheat>
    requires |cheats| == |saved|
  {
    set k | 0 <= k < |saved| && saved[k] >= minSaved :: cheats[k]
  }

  /** With distinct cheats, counting the large savings counts their cheats. */
  lemma {:induction false} CountAtLeastIsCheats(saved: seq<nat>, cheats: seq<Cheat>, minSaved: nat)
    requires |cheats| == |saved| && Distinct(cheats)
    ensures CountAtLeast(saved, minSaved) == |CheatsAtLeast(saved, cheats, minSaved)|
  {
    if |saved| > 0 {
      var n := |saved| - 1;
      CountAtLeastIsCheats(saved[..n], cheats[..n], minSaved);
      var before := CheatsAtLeast(saved[..n], cheats[..n], minSaved);
      assert before == set k | 0 <= k < n && saved[k] >= minSaved :: cheats[k];
      assert cheats[n] !in before;
      if saved[n] >= minSaved {
        assert CheatsAtLeast(saved, cheats, minSaved) == before + {cheats[n]};
      } else {
        assert CheatsAtLeast(saved, cheats, minSaved) == before;
      }
    }
  }

  /** `count_cheats`: the number of cheats of at most `length` steps that save
    at least `minSaved` steps. */
  method CountCheats(track: map<Point, nat>, length: nat, minSaved: nat) returns (count: nat)
    ensures count == |SavingCheats(track, length, minSaved)|
  {
    var saved, cheats := CheatsSavings(track, length);
    count := CountAtLeast(saved, minSaved);
    CountAtLeastIsCheats(saved, cheats, minSaved);
    assert CheatsAtLeast(saved, cheats, minSaved) == SavingCheats(track, length, minSaved) by {
      forall c | c in SavingCheats(track, length, minSaved)
        ensures c in CheatsAtLeast(saved, cheats, minSaved)
      {
        assert Saves(track, length, 0, c);
        var k :| 0 <= k < |cheats| && cheats[k] == c;
        assert StepsSaved(track, cheats[k]) == Ok(Some(saved[k]));
      }
      forall c | c in CheatsAtLeast(saved, cheats, minSaved)
        ensures c in SavingCheats(track, length, minSaved)
      {
        var k :| 0 <= k < |saved| && saved[k] >= minSaved && cheats[k] == c;
        assert cheats[k] in cheats;
        assert StepsSaved(track, cheats[k]) == Ok(Some(saved[k]));
        assert Saves(track, length, minSaved, Cheat(c.from, c.to));
      }
    }
  }

  /** A larger minimum saving never counts more cheats. */
  lemma SavingCheatsMonotone(track: map<Point, nat>, length: nat, low: nat, high: nat)
    requires low <= high
    ensures |SavingCheats(track, length, high)| <= |SavingCheats(track, length, low)|
  {
    var a := SavingCheats(track, length, high);
    var b := SavingCheats(track, length, low);
    assert a <= b;
    assert b == a + (b - a);
    assert a * (b - a) == {};
  }
}
