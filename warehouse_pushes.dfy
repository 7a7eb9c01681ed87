/** Vertical pushes of wide boxes (rust/15/src/simulation.rs:18-62): the
  cells a committed move moves form a cone ahead of the robot, the commit
  moves exactly the contents of that cone one cell on, and so it keeps every
  wide box in one piece. */
module WarehousePushes {
  import opened Wrappers
  import opened Warehouses
  import opened WarehouseSimulation

  /** The cells whose contents a move from `from` carries one cell on:
    `from` itself and, for each box ahead, the cells the push moves from it,
    both halves of a wide box on a vertical push. */
  ghost function Cone(g: Grid, d: Direction, from: Point): set<Point>
    requires Shaped(g)
    decreases Ahead(g.width, g.height, d, from)
  {
    match NextInDirection(g, from, d)
    case Outside => {from}
    case ShortRow => {from}
    case Found(next, field) =>
      match field
      case Box => {from} + Cone(g, d, next)
      case WideBox(side) =>
        if Horizontal(d) then {from} + Cone(g, d, next)
        else (
          match OtherSide(side, next)
          case None => {from} + Cone(g, d, next)
          case Some((_, other)) => {from} + Cone(g, d, next) + Cone(g, d, other))
      case _ => {from}
  }

  /** The cell a move in direction `d` brings into `q`: the one behind it. */
  function Behind(d: Direction, q: Point): Option<Point>
  {
    if q.row - Offset(d).0 >= 0 && q.col - Offset(d).1 >= 0
    then Some(Point(q.row - Offset(d).0, q.col - Offset(d).1))
    else None
  }

  /** The field at `q` once the contents of every cell of `moved` have gone
    one cell on in direction `d` and the cells left behind are empty. */
  ghost function ShiftAt(g: Grid, d: Direction, moved: set<Point>, q: Point): Field
    requires Shaped(g) && InRange(g, q) && (forall p :: p in moved ==> InRange(g, p))
  {
    var b := Behind(d, q);
    if b.Some? && b.value in moved then At(g, b.value)
    else if q in moved then Empty
    else At(g, q)
  }

  /** The cell behind the one a move from `x` enters is `x`. */
  lemma {:induction false} BehindNext(g: Grid, d: Direction, x: Point)
    requires Shaped(g) && NextInDirection(g, x, d).Found?
    ensures Behind(d, NextInDirection(g, x, d).point) == Some(x)
  {
  }

  /** `h` is `g` with the contents of `moved` carried one cell on. */
  ghost predicate Shifted(g: Grid, h: Grid, d: Direction, moved: set<Point>)
    requires Shaped(g)
  {
    Shaped(h) && h.width == g.width && h.height == g.height &&
    (forall p :: p in moved ==> InRange(g, p)) &&
    forall q {:trigger At(h, q)} :: InRange(g, q) ==> At(h, q) == ShiftAt(g, d, moved, q)
  }

  /** In a paired warehouse every wide-box half has its other half beside
    it. */
  lemma {:induction false} PairedAt(g: Grid, p: Point)
    requires Shaped(g) && Paired(g) && InRange(g, p)
    ensures At(g, p) == WideBox(LeftSide) <==> p.col + 1 < g.width && At(g, Point(p.row, p.col + 1)) == WideBox(RightSide)
    ensures At(g, p) == WideBox(RightSide) ==> p.col > 0 && At(g, Point(p.row, p.col - 1)) == WideBox(LeftSide)
  {
    assert PairAt(g.inner[p.row], p.col);
    if p.col > 0 {
      assert PairAt(g.inner[p.row], p.col - 1);
    }
  }

  /** `p` is in the warehouse and holds a wide-box half. */
  predicate WideAt(g: Grid, p: Point)
    requires Shaped(g)
  {
    InRange(g, p) && At(g, p).WideBox?
  }

  /** The other half of the wide box at `p`. */
  function Partner(g: Grid, p: Point): (r: Point)
    requires Shaped(g) && Paired(g) && WideAt(g, p)
    ensures InRange(g, r) && r.row == p.row && r != p
    ensures At(g, r).WideBox? && At(g, r).side != At(g, p).side
    ensures OtherSide(At(g, p).side, p) == Some((At(g, r).side, r))
  {
    PairedAt(g, p);
    OtherSide(At(g, p).side, p).value.1
  }

  lemma {:induction false} PartnerOfPartner(g: Grid, p: Point)
    requires Shaped(g) && Paired(g) && WideAt(g, p)
    ensures Partner(g, Partner(g, p)) == p
  {
    var r := Partner(g, p);
    PairedAt(g, r);
    OtherSideInvolution(At(g, p).side, p);
  }

  /** Every cell of a cone is its root or lies strictly ahead of it, and
    the cone of an in-range root stays in range. */
  lemma {:induction false} ConeAhead(g: Grid, d: Direction, y: Point, p: Point)
    requires Shaped(g) && Paired(g) && InRange(g, y) && p in Cone(g, d, y)
    ensures p == y || StrictlyAhead(d, y, p)
    ensures InRange(g, p)
    decreases Ahead(g.width, g.height, d, y)
  {
    if p != y {
      var next, field := NextInDirection(g, y, d).point, NextInDirection(g, y, d).field;
      NextIsAhead(g, d, y);
      if p in Cone(g, d, next) {
        ConeAhead(g, d, next, p);
        if p != next {
          AheadTransitive(d, y, next, p);
        }
      } else {
        var other := OtherSide(field.side, next).value.1;
        PairedAt(g, next);
        ConeAhead(g, d, other, p);
        if p != other {
          assert StrictlyAhead(d, y, other);
          AheadTransitive(d, y, other, p);
        }
      }
    }
  }

  /** A cone contains the cone of each of its cells. */
  lemma {:induction false} ConeClosed(g: Grid, d: Direction, y: Point, p: Point)
    requires Shaped(g) && p in Cone(g, d, y)
    ensures Cone(g, d, p) <= Cone(g, d, y)
    decreases Ahead(g.width, g.height, d, y)
  {
    if p != y {
      var next, field := NextInDirection(g, y, d).point, NextInDirection(g, y, d).field;
      if p in Cone(g, d, next) {
        ConeClosed(g, d, next, p);
      } else {
        var other := OtherSide(field.side, next).value.1;
        ConeClosed(g, d, other, p);
      }
    }
  }

  /** On a vertical push the cone holds both halves of every wide box in it,
    except perhaps of its root. */
  lemma {:induction false} ConePartner(g: Grid, d: Direction, y: Point, p: Point)
    requires Shaped(g) && Paired(g) && !Horizontal(d) && InRange(g, y)
    requires p in Cone(g, d, y) && p != y && WideAt(g, p)
    ensures Partner(g, p) in Cone(g, d, y)
    decreases Ahead(g.width, g.height, d, y)
  {
    var next, field := NextInDirection(g, y, d).point, NextInDirection(g, y, d).field;
    ConeAhead(g, d, y, p);
    if p in Cone(g, d, next) {
      if p == next {
        assert Partner(g, p) in Cone(g, d, OtherSide(field.side, next).value.1);
      } else {
        ConePartner(g, d, next, p);
      }
    } else {
      var other := OtherSide(field.side, next).value.1;
      if p == other {
        PartnerOfPartner(g, next);
      } else {
        ConePartner(g, d, other, p);
      }
    }
  }

  /** When the cell ahead of `x` has already been moved on, the cone of `x`
    adds only `x` itself. */
  lemma {:induction false} ConeAbsorbed(g: Grid, d: Direction, moved: set<Point>, x: Point)
    requires Shaped(g) && Paired(g) && !Horizontal(d) && InRange(g, x)
    requires forall p :: p in moved ==> InRange(g, p)
    requires forall p {:trigger Cone(g, d, p)} :: p in moved ==> Cone(g, d, p) <= moved
    requires forall p {:trigger WideAt(g, p)} :: p in moved && WideAt(g, p) && StrictlyAhead(d, x, p) ==> Partner(g, p) in moved
    requires CanMove(g, d, x) == Some(true)
    requires NextInDirection(g, x, d).point in moved
    ensures moved + Cone(g, d, x) == moved + {x}
  {
    var next, field := NextInDirection(g, x, d).point, NextInDirection(g, x, d).field;
    NextIsAhead(g, d, x);
    assert Cone(g, d, next) <= moved;
    if field.WideBox? {
      assert WideAt(g, next);
      assert Partner(g, next) in moved;
      assert Cone(g, d, Partner(g, next)) <= moved;
    }
  }

  /** Two writes to two different cells of a rectangular warehouse. */
  lemma WriteTwice(g: Grid, a: Point, u: Field, b: Point, v: Field)
    requires Shaped(g) && InRange(g, a) && InRange(g, b) && a != b
    ensures var r := Write(Write(g, a, u), b, v);
      Shaped(r) && r.width == g.width && r.height == g.height && At(r, a) == u && At(r, b) == v &&
      forall q :: InRange(g, q) && q != a && q != b ==> At(r, q) == At(g, q)
  {
  }

  /** Moving the contents of `x` into the cell ahead, once the push has
    emptied that cell, extends a shift by `x`. */
  lemma {:induction false} FinishMove(g: Grid, h: Grid, p: Grid, d: Direction, moved: set<Point>, x: Point, next: Point, after: set<Point>)
    requires Shaped(g) && InRange(g, x) && Shaped(h)
    requires NextInDirection(h, x, d).Found? && NextInDirection(h, x, d).point == next
    requires Pushed(h, d, x) == Some(p)
    requires Shifted(g, p, d, moved)
    requires x !in moved && (Behind(d, x).Some? ==> Behind(d, x).value !in moved)
    requires Behind(d, next) == Some(x)
    requires after == moved + {x}
    ensures Moved(h, d, x).Some?
    ensures Shifted(g, Moved(h, d, x).value, d, after)
  {
    var r := Write(Write(p, next, At(p, x)), x, Empty);
    assert Moved(h, d, x) == Some(r);
    WriteTwice(p, next, At(p, x), x, Empty);
    ShiftExtended(g, p, r, d, moved, x, next, after);
  }

  /** A shift of `moved` followed by moving the contents of `x` into the
    emptied cell ahead of it, and emptying `x`, is a shift of `moved` and
    `x`. */
  lemma ShiftExtended(g: Grid, p: Grid, r: Grid, d: Direction, moved: set<Point>, x: Point, next: Point, after: set<Point>)
    requires Shaped(g) && InRange(g, x) && InRange(g, next) && x != next
    requires Shifted(g, p, d, moved)
    requires x !in moved && (Behind(d, x).Some? ==> Behind(d, x).value !in moved)
    requires Behind(d, next) == Some(x)
    requires after == moved + {x}
    requires Shaped(r) && r.width == g.width && r.height == g.height
    requires At(r, next) == At(p, x) && At(r, x) == Empty
    requires forall q :: InRange(g, q) && q != next && q != x ==> At(r, q) == At(p, q)
    ensures Shifted(g, r, d, after)
  {
    forall q | InRange(g, q)
      ensures At(r, q) == ShiftAt(g, d, after, q)
    {
      if q != x && q != next {
        assert Behind(d, q) != Some(x);
      }
    }
  }

  /** The heart of the vertical push: a feasible move from `x` on a
    warehouse in which the cells of `moved` have already gone one cell on
    never panics, and moves the cone of `x` on as well. */
  lemma {:induction false} MovedShift(g: Grid, h: Grid, d: Direction, moved: set<Point>, x: Point)
    requires Shaped(g) && Paired(g) && !Horizontal(d) && InRange(g, x)
    requires Shifted(g, h, d, moved)
    requires x !in moved && (Behind(d, x).Some? ==> Behind(d, x).value !in moved)
    requires forall p {:trigger Cone(g, d, p)} :: p in moved ==> Cone(g, d, p) <= moved
    requires forall p {:trigger WideAt(g, p)} :: p in moved && WideAt(g, p) && StrictlyAhead(d, x, p) ==> Partner(g, p) in moved
    requires CanMove(g, d, x) == Some(true)
    ensures Moved(h, d, x).Some?
    ensures Shifted(g, Moved(h, d, x).value, d, moved + Cone(g, d, x))
    decreases Ahead(g.width, g.height, d, x), 4
  {
    if NextInDirection(g, x, d).point in moved {
      AbsorbedAhead(g, h, d, moved, x);
    } else {
      UnmovedAhead(g, h, d, moved, x);
    }
  }

  /** The cell ahead has been emptied by an earlier push. */
  lemma {:induction false} AbsorbedAhead(g: Grid, h: Grid, d: Direction, moved: set<Point>, x: Point)
    requires Shaped(g) && Paired(g) && !Horizontal(d) && InRange(g, x)
    requires Shifted(g, h, d, moved)
    requires x !in moved && (Behind(d, x).Some? ==> Behind(d, x).value !in moved)
    requires forall p {:trigger Cone(g, d, p)} :: p in moved ==> Cone(g, d, p) <= moved
    requires forall p {:trigger WideAt(g, p)} :: p in moved && WideAt(g, p) && StrictlyAhead(d, x, p) ==> Partner(g, p) in moved
    requires CanMove(g, d, x) == Some(true)
    requires NextInDirection(g, x, d).point in moved
    ensures Moved(h, d, x).Some?
    ensures Shifted(g, Moved(h, d, x).value, d, moved + Cone(g, d, x))
  {
    var next := NextInDirection(g, x, d).point;
    NextIsAhead(g, d, x);
    BehindNext(g, d, x);
    assert At(h, next) == Empty;
    ConeAbsorbed(g, d, moved, x);
    FinishMove(g, h, h, d, moved, x, next, moved + Cone(g, d, x));
  }

  /** The cell ahead has not been moved yet. */
  lemma {:induction false} UnmovedAhead(g: Grid, h: Grid, d: Direction, moved: set<Point>, x: Point)
    requires Shaped(g) && Paired(g) && !Horizontal(d) && InRange(g, x)
    requires Shifted(g, h, d, moved)
    requires x !in moved && (Behind(d, x).Some? ==> Behind(d, x).value !in moved)
    requires forall p {:trigger Cone(g, d, p)} :: p in moved ==> Cone(g, d, p) <= moved
    requires forall p {:trigger WideAt(g, p)} :: p in moved && WideAt(g, p) && StrictlyAhead(d, x, p) ==> Partner(g, p) in moved
    requires CanMove(g, d, x) == Some(true)
    requires NextInDirection(g, x, d).point !in moved
    ensures Moved(h, d, x).Some?
    ensures Shifted(g, Moved(h, d, x).value, d, moved + Cone(g, d, x))
    decreases Ahead(g.width, g.height, d, x), 3
  {
    var field := NextInDirection(g, x, d).field;
    if field == Empty {
      EmptyAhead(g, h, d, moved, x);
    } else if field == Box {
      BoxMove(g, h, d, moved, x);
    } else {
      WideBoxMove(g, h, d, moved, x);
    }
  }

  /** The cell ahead is empty. */
  lemma {:induction false} EmptyAhead(g: Grid, h: Grid, d: Direction, moved: set<Point>, x: Point)
    requires Shaped(g) && Paired(g) && !Horizontal(d) && InRange(g, x)
    requires Shifted(g, h, d, moved)
    requires x !in moved && (Behind(d, x).Some? ==> Behind(d, x).value !in moved)
    requires forall p {:trigger Cone(g, d, p)} :: p in moved ==> Cone(g, d, p) <= moved
    requires forall p {:trigger WideAt(g, p)} :: p in moved && WideAt(g, p) && StrictlyAhead(d, x, p) ==> Partner(g, p) in moved
    requires CanMove(g, d, x) == Some(true)
    requires NextInDirection(g, x, d).point !in moved && NextInDirection(g, x, d).field == Empty
    ensures Moved(h, d, x).Some?
    ensures Shifted(g, Moved(h, d, x).value, d, moved + Cone(g, d, x))
  {
    var next := NextInDirection(g, x, d).point;
    NextIsAhead(g, d, x);
    BehindNext(g, d, x);
    assert At(h, next) == Empty;
    assert Cone(g, d, x) == {x};
    FinishMove(g, h, h, d, moved, x, next, moved + Cone(g, d, x));
  }

  /** The push of the box ahead, which no earlier push has moved. */
  lemma {:induction false} PushNext(g: Grid, h: Grid, d: Direction, moved: set<Point>, x: Point)
    requires Shaped(g) && Paired(g) && !Horizontal(d) && InRange(g, x)
    requires Shifted(g, h, d, moved)
    requires x !in moved && (Behind(d, x).Some? ==> Behind(d, x).value !in moved)
    requires forall p {:trigger Cone(g, d, p)} :: p in moved ==> Cone(g, d, p) <= moved
    requires forall p {:trigger WideAt(g, p)} :: p in moved && WideAt(g, p) && StrictlyAhead(d, x, p) ==> Partner(g, p) in moved
    requires CanMove(g, d, x) == Some(true)
    requires NextInDirection(g, x, d).point !in moved
    requires NextInDirection(g, x, d).field == Box || NextInDirection(g, x, d).field.WideBox?
    ensures var next := NextInDirection(g, x, d).point;
      Moved(h, d, next).Some? && Shifted(g, Moved(h, d, next).value, d, moved + Cone(g, d, next))
    decreases Ahead(g.width, g.height, d, x), 1
  {
    var next := NextInDirection(g, x, d).point;
    NextIsAhead(g, d, x);
    AheadCloser(g, d, x, next);
    BehindNext(g, d, x);
    if NextInDirection(g, x, d).field == Box {
      assert CanMove(g, d, next) == Some(true);
    } else {
      CanMoveWide(g, d, x);
    }
    UsePush(g, h, d, moved, x, next);
    MovedShift(g, h, d, moved, next);
  }

  /** A single box ahead that no earlier push has moved. */
  lemma {:induction false} BoxMove(g: Grid, h: Grid, d: Direction, moved: set<Point>, x: Point)
    requires Shaped(g) && Paired(g) && !Horizontal(d) && InRange(g, x)
    requires Shifted(g, h, d, moved)
    requires x !in moved && (Behind(d, x).Some? ==> Behind(d, x).value !in moved)
    requires forall p {:trigger Cone(g, d, p)} :: p in moved ==> Cone(g, d, p) <= moved
    requires forall p {:trigger WideAt(g, p)} :: p in moved && WideAt(g, p) && StrictlyAhead(d, x, p) ==> Partner(g, p) in moved
    requires CanMove(g, d, x) == Some(true)
    requires NextInDirection(g, x, d).point !in moved && NextInDirection(g, x, d).field == Box
    ensures Moved(h, d, x).Some?
    ensures Shifted(g, Moved(h, d, x).value, d, moved + Cone(g, d, x))
    decreases Ahead(g.width, g.height, d, x), 2
  {
    PushNext(g, h, d, moved, x);
    BoxFinish(g, h, d, moved, x);
  }

  /** Once the single box ahead has been pushed, the contents of `x` move on. */
  lemma {:induction false} BoxFinish(g: Grid, h: Grid, d: Direction, moved: set<Point>, x: Point)
    requires Shaped(g) && Paired(g) && !Horizontal(d) && InRange(g, x)
    requires Shifted(g, h, d, moved)
    requires x !in moved && (Behind(d, x).Some? ==> Behind(d, x).value !in moved)
    requires forall p {:trigger Cone(g, d, p)} :: p in moved ==> Cone(g, d, p) <= moved
    requires forall p {:trigger WideAt(g, p)} :: p in moved && WideAt(g, p) && StrictlyAhead(d, x, p) ==> Partner(g, p) in moved
    requires CanMove(g, d, x) == Some(true)
    requires NextInDirection(g, x, d).point !in moved && NextInDirection(g, x, d).field == Box
    requires var next := NextInDirection(g, x, d).point;
      Moved(h, d, next).Some? && Shifted(g, Moved(h, d, next).value, d, moved + Cone(g, d, next))
    ensures Moved(h, d, x).Some?
    ensures Shifted(g, Moved(h, d, x).value, d, moved + Cone(g, d, x))
  {
    var next := NextInDirection(g, x, d).point;
    NextIsAhead(g, d, x);
    BehindNext(g, d, x);
    assert At(h, next) == At(g, next);
    assert NextInDirection(h, x, d) == Found(next, Box);
    PushedThroughBox(h, d, x);
    NotInCone(g, d, next, x);
    assert Cone(g, d, x) == {x} + Cone(g, d, next);
    UnionRegrouped(moved, Cone(g, d, next), {}, x, Cone(g, d, x));
    FinishMove(g, h, Moved(h, d, next).value, d, moved + Cone(g, d, next), x, next, moved + Cone(g, d, x));
  }

  /** A wide box ahead that no earlier push has moved: both halves are
    pushed, the second on the warehouse the first has left. */
  lemma {:induction false} WideBoxMove(g: Grid, h: Grid, d: Direction, moved: set<Point>, x: Point)
    requires Shaped(g) && Paired(g) && !Horizontal(d) && InRange(g, x)
    requires Shifted(g, h, d, moved)
    requires x !in moved && (Behind(d, x).Some? ==> Behind(d, x).value !in moved)
    requires forall p {:trigger Cone(g, d, p)} :: p in moved ==> Cone(g, d, p) <= moved
    requires forall p {:trigger WideAt(g, p)} :: p in moved && WideAt(g, p) && StrictlyAhead(d, x, p) ==> Partner(g, p) in moved
    requires CanMove(g, d, x) == Some(true)
    requires NextInDirection(g, x, d).point !in moved && NextInDirection(g, x, d).field.WideBox?
    ensures Moved(h, d, x).Some?
    ensures Shifted(g, Moved(h, d, x).value, d, moved + Cone(g, d, x))
    decreases Ahead(g.width, g.height, d, x), 2
  {
    var next := NextInDirection(g, x, d).point;
    var other := Partner(g, next);
    NextIsAhead(g, d, x);
    AheadCloser(g, d, x, next);
    assert Ahead(g.width, g.height, d, other) == Ahead(g.width, g.height, d, next);
    PushNext(g, h, d, moved, x);
    SecondHalf(g, d, moved, x, next);
    CanMoveWide(g, d, x);
    MovedShift(g, Moved(h, d, next).value, d, moved + Cone(g, d, next), other);
    WideFinish(g, h, d, moved, x);
  }

  /** Once both halves of the wide box ahead have been pushed, the contents of
    `x` move on. */
  lemma {:induction false} WideFinish(g: Grid, h: Grid, d: Direction, moved: set<Point>, x: Point)
    requires Shaped(g) && Paired(g) && !Horizontal(d) && InRange(g, x)
    requires Shifted(g, h, d, moved)
    requires x !in moved && (Behind(d, x).Some? ==> Behind(d, x).value !in moved)
    requires forall p {:trigger Cone(g, d, p)} :: p in moved ==> Cone(g, d, p) <= moved
    requires forall p {:trigger WideAt(g, p)} :: p in moved && WideAt(g, p) && StrictlyAhead(d, x, p) ==> Partner(g, p) in moved
    requires CanMove(g, d, x) == Some(true)
    requires NextInDirection(g, x, d).point !in moved && NextInDirection(g, x, d).field.WideBox?
    requires var next := NextInDirection(g, x, d).point; var other := Partner(g, next);
      var moved1 := moved + Cone(g, d, next);
      Moved(h, d, next).Some? && Moved(Moved(h, d, next).value, d, other).Some? &&
      Shifted(g, Moved(Moved(h, d, next).value, d, other).value, d, moved1 + Cone(g, d, other))
    ensures Moved(h, d, x).Some?
    ensures Shifted(g, Moved(h, d, x).value, d, moved + Cone(g, d, x))
  {
    var next := NextInDirection(g, x, d).point;
    var other := Partner(g, next);
    var h2 := Moved(Moved(h, d, next).value, d, other).value;
    NextIsAhead(g, d, x);
    BehindNext(g, d, x);
    assert At(h, next) == At(g, next);
    PushedWide(g, h, d, x);
    NotInCone(g, d, next, x);
    NotInCone(g, d, other, x);
    ConeWide(g, d, x);
    UnionRegrouped(moved, Cone(g, d, next), Cone(g, d, other), x, Cone(g, d, x));
    FinishMove(g, h, h2, d, moved + Cone(g, d, next) + Cone(g, d, other), x, next, moved + Cone(g, d, x));
  }

  /** A feasible vertical move against a wide box is feasible for both of
    its halves. */
  lemma {:induction false} CanMoveWide(g: Grid, d: Direction, x: Point)
    requires Shaped(g) && Paired(g) && !Horizontal(d) && CanMove(g, d, x) == Some(true)
    requires NextInDirection(g, x, d).field.WideBox?
    ensures var next := NextInDirection(g, x, d).point;
      CanMove(g, d, next) == Some(true) && CanMove(g, d, Partner(g, next)) == Some(true)
  {
    var next := NextInDirection(g, x, d).point;
    var other := Partner(g, next);
    assert OtherSide(At(g, next).side, next) == Some((At(g, other).side, other));
  }

  /** A vertical push against a wide box that `g` and `h` agree on pushes
    both halves in `h`, the first and then the second. */
  lemma {:induction false} PushedWide(g: Grid, h: Grid, d: Direction, x: Point)
    requires Shaped(g) && Paired(g) && !Horizontal(d) && Shaped(h) && h.width == g.width && h.height == g.height
    requires NextInDirection(g, x, d).Found? && WideAt(g, NextInDirection(g, x, d).point)
    requires At(h, NextInDirection(g, x, d).point) == At(g, NextInDirection(g, x, d).point)
    requires var next := NextInDirection(g, x, d).point;
      Moved(h, d, next).Some? && Moved(Moved(h, d, next).value, d, Partner(g, next)).Some?
    ensures var next := NextInDirection(g, x, d).point;
      Pushed(h, d, x) == Moved(Moved(h, d, next).value, d, Partner(g, next))
  {
    var next := NextInDirection(g, x, d).point;
    var other := Partner(g, next);
    assert OtherSide(At(g, next).side, next) == Some((At(g, other).side, other));
    assert NextInDirection(h, x, d) == Found(next, At(g, next));
  }

  /** On a vertical push the cone of a cell below or above a wide box holds
    the cones of both its halves. */
  lemma {:induction false} ConeWide(g: Grid, d: Direction, x: Point)
    requires Shaped(g) && Paired(g) && !Horizontal(d)
    requires NextInDirection(g, x, d).Found? && NextInDirection(g, x, d).field.WideBox?
    ensures var next := NextInDirection(g, x, d).point;
      Cone(g, d, x) == {x} + Cone(g, d, next) + Cone(g, d, Partner(g, next))
  {
    var next := NextInDirection(g, x, d).point;
    var other := Partner(g, next);
    assert OtherSide(At(g, next).side, next) == Some((At(g, other).side, other));
  }

  /** Adding the cones of both halves and then `x` adds the cone of `x`. */
  lemma {:induction false} UnionRegrouped(moved: set<Point>, first: set<Point>, second: set<Point>, x: Point, cone: set<Point>)
    requires cone == {x} + first + second
    ensures moved + first + second + {x} == moved + cone
  {
  }

  /** The preconditions of `MovedShift` carry over from `x` to the box just
    ahead of it. */
  lemma {:induction false} UsePush(g: Grid, h: Grid, d: Direction, moved: set<Point>, x: Point, next: Point)
    requires Shaped(g) && Paired(g) && !Horizontal(d) && InRange(g, x)
    requires NextInDirection(g, x, d).Found? && NextInDirection(g, x, d).point == next
    requires Behind(d, next) == Some(x) && x !in moved && next !in moved
    requires forall p :: p in moved ==> InRange(g, p)
    requires forall p {:trigger WideAt(g, p)} :: p in moved && WideAt(g, p) && StrictlyAhead(d, x, p) ==> Partner(g, p) in moved
    ensures forall p {:trigger WideAt(g, p)} :: p in moved && WideAt(g, p) && StrictlyAhead(d, next, p) ==> Partner(g, p) in moved
  {
    NextIsAhead(g, d, x);
    forall p | p in moved && WideAt(g, p) && StrictlyAhead(d, next, p)
      ensures Partner(g, p) in moved
    {
      AheadTransitive(d, x, next, p);
    }
  }

  /** A cone lies ahead of its root, so it holds neither the cell that
    pushes the root nor the cell behind that one. */
  lemma {:induction false} NotInCone(g: Grid, d: Direction, y: Point, x: Point)
    requires Shaped(g) && Paired(g) && !Horizontal(d) && InRange(g, y)
    requires StrictlyAhead(d, x, y)
    ensures x !in Cone(g, d, y)
    ensures Behind(d, x).Some? ==> Behind(d, x).value !in Cone(g, d, y)
  {
    if x in Cone(g, d, y) {
      ConeAhead(g, d, y, x);
    }
    if Behind(d, x).Some? && Behind(d, x).value in Cone(g, d, y) {
      ConeAhead(g, d, y, Behind(d, x).value);
    }
  }

  /** After the first half of a vertical wide-box push the preconditions of
    `MovedShift` hold for the second half. */
  lemma {:induction false} SecondHalf(g: Grid, d: Direction, moved: set<Point>, x: Point, next: Point)
    requires Shaped(g) && Paired(g) && !Horizontal(d) && InRange(g, x)
    requires InRange(g, next) && NextInDirection(g, x, d) == Found(next, At(g, next))
    requires WideAt(g, next) && next !in moved && x !in moved
    requires forall p :: p in moved ==> InRange(g, p)
    requires forall p {:trigger Cone(g, d, p)} :: p in moved ==> Cone(g, d, p) <= moved
    requires forall p {:trigger WideAt(g, p)} :: p in moved && WideAt(g, p) && StrictlyAhead(d, x, p) ==> Partner(g, p) in moved
    ensures var other := Partner(g, next); var moved1 := moved + Cone(g, d, next);
      other !in moved1 && (Behind(d, other).Some? ==> Behind(d, other).value !in moved1) &&
      (forall p {:trigger Cone(g, d, p)} :: p in moved1 ==> Cone(g, d, p) <= moved1) &&
      (forall p {:trigger WideAt(g, p)} :: p in moved1 && WideAt(g, p) && StrictlyAhead(d, other, p) ==> Partner(g, p) in moved1)
  {
    var other := Partner(g, next);
    var moved1 := moved + Cone(g, d, next);
    NextIsAhead(g, d, x);
    PartnerOfPartner(g, next);
    assert WideAt(g, other);
    if other in Cone(g, d, next) {
      ConeAhead(g, d, next, other);
    }
    assert other !in moved1;
    if Behind(d, other).Some? && Behind(d, other).value in moved1 {
      var b := Behind(d, other).value;
      assert NextInDirection(g, b, d) == Found(other, At(g, other));
      assert other in Cone(g, d, b);
      if b !in moved {
        ConeClosed(g, d, next, b);
      }
    }
    forall p | p in moved1
      ensures Cone(g, d, p) <= moved1
    {
      if p in Cone(g, d, next) {
        ConeClosed(g, d, next, p);
      }
    }
    forall p | p in moved1 && WideAt(g, p) && StrictlyAhead(d, other, p)
      ensures Partner(g, p) in moved1
    {
      if p in moved {
        assert StrictlyAhead(d, x, p);
      } else {
        ConePartner(g, d, next, p);
      }
    }
  }

  /** The root of a cone is in it. */
  lemma {:induction false} ConeRoot(g: Grid, d: Direction, y: Point)
    requires Shaped(g)
    ensures y in Cone(g, d, y)
  {
  }

  /** A cone holds the cell ahead of each of its cells that a wide box
    fills. */
  lemma {:induction false} ConeForward(g: Grid, d: Direction, y: Point, p: Point)
    requires Shaped(g) && p in Cone(g, d, y)
    requires NextInDirection(g, p, d).Found? && NextInDirection(g, p, d).field.WideBox?
    ensures NextInDirection(g, p, d).point in Cone(g, d, y)
  {
    var next := NextInDirection(g, p, d).point;
    ConeClosed(g, d, y, p);
    ConeRoot(g, d, next);
  }

  /** The cell a vertical move brings into `q` is the one whose step ahead
    is `q`. */
  lemma {:induction false} StepFromBehind(g: Grid, d: Direction, q: Point)
    requires Shaped(g) && !Horizontal(d) && InRange(g, q)
    requires Behind(d, q).Some? && InRange(g, Behind(d, q).value)
    ensures NextInDirection(g, Behind(d, q).value, d) == Found(q, At(g, q))
  {
  }

  /** The standing assumptions of the pairing proof: a robot at `position`
    whose vertical move has carried its cone one cell on from `g` to `h`. */
  ghost predicate ConeMoved(g: Grid, h: Grid, d: Direction, position: Point)
  {
    Shaped(g) && Paired(g) && !Horizontal(d) && InRange(g, position) && At(g, position) == Robot &&
    Shifted(g, h, d, Cone(g, d, position))
  }

  /** A wide-box half in the robot's cone has its other half there too. */
  lemma {:induction false} ConedPartner(g: Grid, d: Direction, position: Point, p: Point)
    requires Shaped(g) && Paired(g) && !Horizontal(d) && InRange(g, position) && At(g, position) == Robot
    requires p in Cone(g, d, position) && WideAt(g, p)
    ensures Partner(g, p) in Cone(g, d, position)
  {
    ConePartner(g, d, position, p);
  }

  /** On a vertical move the cell behind the right neighbour of `q` is the
    right neighbour of the cell behind `q`. */
  lemma BehindRightNeighbour(d: Direction, q: Point)
    requires !Horizontal(d) && Behind(d, q).Some?
    ensures Behind(d, Point(q.row, q.col + 1)) == Some(Point(Behind(d, q).value.row, Behind(d, q).value.col + 1))
  {
  }

  /** On a vertical move the cell behind the left neighbour of `q` is the
    left neighbour of the cell behind `q`. */
  lemma BehindLeftNeighbour(d: Direction, q: Point)
    requires !Horizontal(d) && Behind(d, q).Some? && q.col > 0
    ensures Behind(d, q).value.col > 0
    ensures Behind(d, Point(q.row, q.col - 1)) == Some(Point(Behind(d, q).value.row, Behind(d, q).value.col - 1))
  {
  }

  /** After the move a left half still has its right half beside it. */
  lemma ShiftedLeftHalf(g: Grid, h: Grid, d: Direction, position: Point, q: Point)
    requires ConeMoved(g, h, d, position) && InRange(g, q) && At(h, q) == WideBox(LeftSide)
    ensures q.col + 1 < g.width && At(h, Point(q.row, q.col + 1)) == WideBox(RightSide)
  {
    var b := Behind(d, q);
    if b.Some? && b.value in Cone(g, d, position) {
      CarriedLeftHalf(g, h, d, position, q);
    } else {
      KeptLeftHalf(g, h, d, position, q);
    }
  }

  /** A left half carried on from the cell behind arrives beside its right
    half, which the move carries along. */
  lemma CarriedLeftHalf(g: Grid, h: Grid, d: Direction, position: Point, q: Point)
    requires ConeMoved(g, h, d, position) && InRange(g, q) && At(h, q) == WideBox(LeftSide)
    requires Behind(d, q).Some? && Behind(d, q).value in Cone(g, d, position)
    ensures q.col + 1 < g.width && At(h, Point(q.row, q.col + 1)) == WideBox(RightSide)
  {
    var r := Point(q.row, q.col + 1);
    var b := Behind(d, q).value;
    PairedAt(g, b);
    ConedPartner(g, d, position, b);
    BehindRightNeighbour(d, q);
    assert At(h, r) == At(g, Point(b.row, b.col + 1));
  }

  /** A left half that stayed where it was still has its right half beside
    it: the move carries neither half or both. */
  lemma KeptLeftHalf(g: Grid, h: Grid, d: Direction, position: Point, q: Point)
    requires ConeMoved(g, h, d, position) && InRange(g, q) && At(h, q) == WideBox(LeftSide)
    requires !(Behind(d, q).Some? && Behind(d, q).value in Cone(g, d, position))
    ensures q.col + 1 < g.width && At(h, Point(q.row, q.col + 1)) == WideBox(RightSide)
  {
    var cone := Cone(g, d, position);
    var r := Point(q.row, q.col + 1);
    PairedAt(g, q);
    assert WideAt(g, r);
    if r in cone {
      ConedPartner(g, d, position, r);
    }
    var br := Behind(d, r);
    if br.Some? && br.value in cone {
      StepFromBehind(g, d, r);
      ConeForward(g, d, position, br.value);
      ConedPartner(g, d, position, r);
    }
    assert At(h, r) == At(g, r);
  }

  /** After the move a right half still has its left half beside it. */
  lemma ShiftedRightHalf(g: Grid, h: Grid, d: Direction, position: Point, q: Point)
    requires ConeMoved(g, h, d, position) && InRange(g, q) && q.col > 0
    requires At(h, q) == WideBox(RightSide)
    ensures At(h, Point(q.row, q.col - 1)) == WideBox(LeftSide)
  {
    var b := Behind(d, q);
    if b.Some? && b.value in Cone(g, d, position) {
      CarriedRightHalf(g, h, d, position, q);
    } else {
      KeptRightHalf(g, h, d, position, q);
    }
  }

  /** A right half carried on from the cell behind arrives beside its left
    half, which the move carries along. */
  lemma CarriedRightHalf(g: Grid, h: Grid, d: Direction, position: Point, q: Point)
    requires ConeMoved(g, h, d, position) && InRange(g, q) && q.col > 0
    requires At(h, q) == WideBox(RightSide)
    requires Behind(d, q).Some? && Behind(d, q).value in Cone(g, d, position)
    ensures At(h, Point(q.row, q.col - 1)) == WideBox(LeftSide)
  {
    var l := Point(q.row, q.col - 1);
    var b := Behind(d, q).value;
    PairedAt(g, b);
    ConedPartner(g, d, position, b);
    BehindLeftNeighbour(d, q);
    assert At(h, l) == At(g, Point(b.row, b.col - 1));
  }

  /** A right half that stayed where it was still has its left half beside
    it. */
  lemma KeptRightHalf(g: Grid, h: Grid, d: Direction, position: Point, q: Point)
    requires ConeMoved(g, h, d, position) && InRange(g, q) && q.col > 0
    requires At(h, q) == WideBox(RightSide)
    requires !(Behind(d, q).Some? && Behind(d, q).value in Cone(g, d, position))
    ensures At(h, Point(q.row, q.col - 1)) == WideBox(LeftSide)
  {
    var cone := Cone(g, d, position);
    var l := Point(q.row, q.col - 1);
    PairedAt(g, q);
    assert WideAt(g, l);
    if l in cone {
      ConedPartner(g, d, position, l);
      PartnerOfPartner(g, q);
    }
    var bl := Behind(d, l);
    if bl.Some? && bl.value in cone {
      StepFromBehind(g, d, l);
      ConeForward(g, d, position, bl.value);
      ConedPartner(g, d, position, l);
      PartnerOfPartner(g, q);
    }
    assert At(h, l) == At(g, l);
  }

  /** After the move no right half stands in the first column. */
  lemma {:induction false} ShiftedRightNotFirst(g: Grid, h: Grid, d: Direction, position: Point, q: Point)
    requires ConeMoved(g, h, d, position) && InRange(g, q) && At(h, q) == WideBox(RightSide)
    ensures q.col > 0
  {
    var b := Behind(d, q);
    if b.Some? && b.value in Cone(g, d, position) {
      PairedAt(g, b.value);
    } else {
      PairedAt(g, q);
    }
  }

  /** A vertical move of the robot that carries its cone one cell on keeps
    every wide box whole. */
  lemma {:induction false} ShiftPaired(g: Grid, h: Grid, d: Direction, position: Point)
    requires ConeMoved(g, h, d, position)
    ensures Paired(h)
  {
    forall i, c | 0 <= i < |h.inner| && 0 <= c < |h.inner[i]|
      ensures PairAt(h.inner[i], c)
    {
      var q := Point(i, c);
      assert h.inner[i][c] == At(h, q);
      if At(h, q) == WideBox(LeftSide) {
        ShiftedLeftHalf(g, h, d, position, q);
      }
      if c + 1 < |h.inner[i]| && At(h, Point(i, c + 1)) == WideBox(RightSide) {
        ShiftedRightHalf(g, h, d, position, Point(i, c + 1));
      }
      if At(h, q) == WideBox(RightSide) {
        ShiftedRightNotFirst(g, h, d, position, q);
      }
    }
  }

  /** `move_robot` on a warehouse of whole wide boxes panics only where the
    feasibility check does, and keeps every wide box whole, whichever way it
    moves. */
  lemma {:induction false} RobotMoveKeepsPairs(g: Grid, position: Point, d: Direction)
    requires Shaped(g) && InRange(g, position) && At(g, position) == Robot && Paired(g)
    requires CanMove(g, d, position).Some?
    ensures RobotMove(g, position, d).Some?
    ensures Paired(RobotMove(g, position, d).value.0)
  {
    if CanMove(g, d, position) == Some(true) {
      if Horizontal(d) {
        FeasibleLineCommits(g, d, position);
        HorizontalMovePaired(g, d, position);
      } else {
        assert Shifted(g, g, d, {});
        MovedShift(g, g, d, {}, position);
        var h := Moved(g, d, position).value;
        assert {} + Cone(g, d, position) == Cone(g, d, position);
        ShiftPaired(g, h, d, position);
      }
    }
  }
}
