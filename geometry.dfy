/** The toroidal W x W world and its locations (model/location.py). */
module Geometry {

  /** Config.world_size: the side of the square, wrap-around world. */
  const W: int := 30

  /**
   * A Location: integer coordinates and a range r. A ranged location stands
   * for the (2r+1) x (2r+1) square centred on (x, y). The Python setters
   * set_x, set_y and set_range are datatype updates such as `l.(x := v)`.
   */
  datatype Loc = Loc(x: int, y: int, range: int)

  /** `Location(x, y)`: the range defaults to 0. */
  function Cell(x: int, y: int): Loc
  {
    Loc(x, y, 0)
  }

  predicate InBounds(l: Loc)
  {
    0 <= l.x < W && 0 <= l.y < W
  }

  /** Location.__eq__: x and y are compared, the range is not. */
  predicate SameCell(a: Loc, b: Loc)
  {
    a.x == b.x && a.y == b.y
  }

  lemma SameCellIgnoresRange(a: Loc, b: Loc, r: int)
    ensures SameCell(a, b) <==> SameCell(a.(range := r), b)
    ensures SameCell(a, b) <==> a.(range := 0) == b.(range := 0)
  {
  }

  function Abs(d: int): int
  {
    if d < 0 then -d else d
  }

  function Min(a: int, b: int): int
  {
    if a <= b then a else b
  }

  function Max(a: int, b: int): int
  {
    if a >= b then a else b
  }

  /** One axis of dist: |d|, or the way round the torus if that is shorter. */
  function AxisDist(d: int): int
  {
    Min(Abs(d), W - Abs(d))
  }

  /**
   * Location.dist: toroidal Chebyshev distance. The coordinates are used as
   * stored, without reduction mod W, so the result is only a distance when
   * both locations are in bounds.
   */
  function Dist(a: Loc, b: Loc): (d: int)
    ensures d <= W / 2
    ensures InBounds(a) && InBounds(b) ==> 0 <= d
  {
    Max(AxisDist(a.x - b.x), AxisDist(a.y - b.y))
  }

  /**
   * Python's min(s, key=here.dist): the index of the first element at the
   * least distance from `here`.
   */
  function FirstNearest(here: Loc, s: seq<Loc>): (i: nat)
    requires s != []
    ensures i < |s|
    ensures forall j :: 0 <= j < |s| ==> Dist(here, s[i]) <= Dist(here, s[j])
    ensures forall j :: 0 <= j < i ==> Dist(here, s[i]) < Dist(here, s[j])
  {
    if |s| == 1 then 0
    else
      var k := FirstNearest(here, s[..|s| - 1]);
      assert s[..|s| - 1][k] == s[k];
      if Dist(here, s[|s| - 1]) < Dist(here, s[k]) then |s| - 1 else k
  }

  lemma DistSymmetric(a: Loc, b: Loc)
    ensures Dist(a, b) == Dist(b, a)
  {
  }

  lemma DistSelf(a: Loc)
    ensures Dist(a, a) == 0
  {
  }

  /** On in-bounds cells the distance is zero exactly on the same cell. */
  lemma DistZero(a: Loc, b: Loc)
    requires InBounds(a) && InBounds(b)
    ensures Dist(a, b) == 0 <==> SameCell(a, b)
  {
  }

  /** The distances the location tests expect, with W = 30. */
  lemma DistExamples()
    ensures Dist(Cell(5, 5), Cell(5, 8)) == 3
    ensures Dist(Cell(5, 5), Cell(7, 7)) == 2
    ensures Dist(Cell(5, 5), Cell(W - 1, 5)) == 6
    ensures Dist(Cell(5, 5), Cell(5, W - 1)) == 6
    ensures Dist(Cell(5, 5), Cell(W - 1, W - 1)) == 6
  {
  }

  /** With a coordinate outside [0, W) the "distance" can be negative. */
  lemma DistOfUnreducedCoordinates()
    ensures Dist(Cell(0, 0), Cell(45, 45)) == -15
  {
  }

  // ---------------------------------------------------------------------
  // get_points
  // ---------------------------------------------------------------------

  /** Cells along one side of a ranged location: 2r+1, none for r < 0. */
  function Side(r: int): nat
  {
    if r >= 0 then 2 * r + 1 else 0
  }

  /** The point appended when count_x == i and count_y == j. */
  function PointAt(l: Loc, i: int, j: int): Loc
  {
    Cell(((W + l.x - l.range) % W + i) % W, ((W + l.y - l.range) % W + j) % W)
  }

  /** The first n points of the inner loop for count_x == i. */
  function Column(l: Loc, i: int, n: nat): seq<Loc>
  {
    seq(n, j => PointAt(l, i, j))
  }

  /** The points appended by the first c rounds of the outer loop. */
  function PointsUpTo(l: Loc, c: nat): seq<Loc>
  {
    if c == 0 then [] else PointsUpTo(l, c - 1) + Column(l, c - 1, Side(l.range))
  }

  /** Location.get_points, x-major then y, from ((x-r) mod W, (y-r) mod W). */
  function Points(l: Loc): seq<Loc>
  {
    PointsUpTo(l, Side(l.range))
  }

  method GetPoints(l: Loc) returns (points: seq<Loc>)
    ensures points == Points(l)
  {
    points := [];
    var leftX := (W + l.x - l.range) % W;
    var topY := (W + l.y - l.range) % W;
    var countX := 0;
    var countY := 0;
    while countX < 2 * l.range + 1
      invariant 0 <= countX <= Side(l.range)
      invariant countY == 0
      invariant points == PointsUpTo(l, countX)
    {
      while countY < 2 * l.range + 1
        invariant 0 <= countY <= Side(l.range)
        invariant points == PointsUpTo(l, countX) + Column(l, countX, countY)
      {
        assert Column(l, countX, countY + 1) == Column(l, countX, countY) + [PointAt(l, countX, countY)];
        points := points + [Cell((leftX + countX) % W, (topY + countY) % W)];
        countY := countY + 1;
      }
      countX := countX + 1;
      countY := 0;
    }
  }

  lemma MulMonotone(a: int, b: int, n: int)
    requires a <= b && 0 <= n
    ensures a * n <= b * n
  {
    var d := b - a;
    assert b * n == a * n + d * n;
  }

  lemma {:induction false} PointsUpToLength(l: Loc, c: nat)
    ensures |PointsUpTo(l, c)| == c * Side(l.range)
  {
    if c > 0 {
      PointsUpToLength(l, c - 1);
      assert c * Side(l.range) == (c - 1) * Side(l.range) + Side(l.range);
    }
  }

  /** get_points returns exactly (2r+1)^2 points (none for a negative range). */
  lemma PointsLength(l: Loc)
    ensures |Points(l)| == Side(l.range) * Side(l.range)
  {
    PointsUpToLength(l, Side(l.range));
  }

  lemma {:induction false} PointsUpToMember(l: Loc, c: nat, p: Loc)
    ensures p in PointsUpTo(l, c) <==>
      exists i, j :: 0 <= i < c && 0 <= j < Side(l.range) && p == PointAt(l, i, j)
  {
    var n := Side(l.range);
    if c > 0 {
      PointsUpToMember(l, c - 1, p);
      var col := Column(l, c - 1, n);
      if p in col {
        var j :| 0 <= j < n && col[j] == p;
        assert p == PointAt(l, c - 1, j);
      }
      if exists i, j :: 0 <= i < c && 0 <= j < n && p == PointAt(l, i, j) {
        var i, j :| 0 <= i < c && 0 <= j < n && p == PointAt(l, i, j);
        if i == c - 1 {
          assert col[j] == p;
        }
      }
    }
  }

  /** A point is in get_points exactly when some (count_x, count_y) produced it. */
  lemma PointsMember(l: Loc, p: Loc)
    ensures p in Points(l) <==>
      exists i, j :: 0 <= i < Side(l.range) && 0 <= j < Side(l.range) && p == PointAt(l, i, j)
  {
    PointsUpToMember(l, Side(l.range), p);
  }

  /** Every point of get_points is an in-bounds cell of range 0. */
  lemma PointsInBounds(l: Loc)
    ensures forall p :: p in Points(l) ==> InBounds(p) && p.range == 0
  {
    forall p | p in Points(l)
      ensures InBounds(p) && p.range == 0
    {
      PointsMember(l, p);
    }
  }

  /** The wrapped offset i - r of one axis is at most r away from x. */
  lemma AxisWindow(x: int, r: int, i: int)
    requires 0 <= x < W && 0 <= r && 0 <= i <= 2 * r
    ensures AxisDist(((W + x - r) % W + i) % W - x) <= r
  {
    if r < W / 2 {
      var e := i - r;
      var p := ((W + x - r) % W + i) % W;
      assert p == (x + e + W) % W;
      if x + e < 0 {
        assert p == x + e + W;
      } else if x + e < W {
        assert p == x + e;
      } else {
        assert p == x + e - W;
      }
    }
  }

  /** Every point of get_points is within toroidal distance r of the centre. */
  lemma PointsWithinRange(l: Loc)
    requires InBounds(l)
    ensures forall p :: p in Points(l) ==> Dist(p, l) <= l.range
  {
    forall p | p in Points(l)
      ensures Dist(p, l) <= l.range
    {
      PointsMember(l, p);
      var i, j :| 0 <= i < Side(l.range) && 0 <= j < Side(l.range) && p == PointAt(l, i, j);
      PointAtWithin(l, i, j);
    }
  }

  lemma PointAtWithin(l: Loc, i: int, j: int)
    requires InBounds(l) && 0 <= i < Side(l.range) && 0 <= j < Side(l.range)
    ensures Dist(PointAt(l, i, j), l) <= l.range
  {
    AxisWindow(l.x, l.range, i);
    AxisWindow(l.y, l.range, j);
  }

  lemma PointAtInjective(l: Loc, i: int, j: int, i': int, j': int)
    requires 0 <= i < W && 0 <= j < W && 0 <= i' < W && 0 <= j' < W
    requires PointAt(l, i, j) == PointAt(l, i', j')
    ensures i == i' && j == j'
  {
  }

  predicate Distinct(s: seq<Loc>)
  {
    forall p, q :: 0 <= p < q < |s| ==> s[p] != s[q]
  }

  lemma {:induction false} PointsUpToDistinct(l: Loc, c: nat)
    requires c <= Side(l.range) <= W
    ensures Distinct(PointsUpTo(l, c))
  {
    var n := Side(l.range);
    if c > 0 {
      PointsUpToDistinct(l, c - 1);
      var a := PointsUpTo(l, c - 1);
      var b := Column(l, c - 1, n);
      forall p, q | 0 <= p < q < |a + b|
        ensures (a + b)[p] != (a + b)[q]
      {
        if q < |a| {
          assert (a + b)[p] == a[p] && (a + b)[q] == a[q];
        } else if p >= |a| {
          assert (a + b)[p] == PointAt(l, c - 1, p - |a|);
          assert (a + b)[q] == PointAt(l, c - 1, q - |a|);
          if (a + b)[p] == (a + b)[q] {
            PointAtInjective(l, c - 1, p - |a|, c - 1, q - |a|);
          }
        } else {
          assert (a + b)[p] in a;
          PointsUpToMember(l, c - 1, (a + b)[p]);
          var i, j :| 0 <= i < c - 1 && 0 <= j < n && (a + b)[p] == PointAt(l, i, j);
          assert (a + b)[q] == PointAt(l, c - 1, q - |a|);
          if (a + b)[p] == (a + b)[q] {
            PointAtInjective(l, i, j, c - 1, q - |a|);
          }
        }
      }
    }
  }

  /** When the square fits in the world (2r+1 <= W) no point is repeated. */
  lemma PointsDistinct(l: Loc)
    requires Side(l.range) <= W
    ensures Distinct(Points(l))
  {
    PointsUpToDistinct(l, Side(l.range));
  }

  /** A location of range 0 yields the single (wrapped) cell it names. */
  lemma PointsOfRangeZero(l: Loc)
    requires l.range == 0
    ensures Points(l) == [Cell(l.x % W, l.y % W)]
    ensures InBounds(l) ==> |Points(l)| == 1 && SameCell(Points(l)[0], l)
  {
    assert Side(l.range) == 1;
    assert PointsUpTo(l, 0) == [];
    assert Points(l) == PointsUpTo(l, 0) + Column(l, 0, 1);
    assert Column(l, 0, 1)[0] == PointAt(l, 0, 0);
    assert (W + l.x) % W % W == l.x % W;
    assert (W + l.y) % W % W == l.y % W;
  }

  lemma {:induction false} PointsUpToIndex(l: Loc, c: nat, i: int, j: int)
    requires 0 <= i < c && 0 <= j < Side(l.range)
    ensures |PointsUpTo(l, c)| == c * Side(l.range)
    ensures i * Side(l.range) + j < |PointsUpTo(l, c)|
    ensures PointsUpTo(l, c)[i * Side(l.range) + j] == PointAt(l, i, j)
  {
    var n := Side(l.range);
    PointsUpToLength(l, c);
    PointsUpToLength(l, c - 1);
    MulMonotone(i + 1, c, n);
    if i < c - 1 {
      MulMonotone(i + 1, c - 1, n);
      PointsUpToIndex(l, c - 1, i, j);
    }
  }

  /** get_points is x-major: point i * (2r+1) + j is column i, row j of the square. */
  lemma PointsOrder(l: Loc, i: int, j: int)
    requires 0 <= i < Side(l.range) && 0 <= j < Side(l.range)
    ensures |Points(l)| == Side(l.range) * Side(l.range)
    ensures i * Side(l.range) + j < |Points(l)|
    ensures Points(l)[i * Side(l.range) + j]
         == Cell(((W + l.x - l.range) % W + i) % W, ((W + l.y - l.range) % W + j) % W)
  {
    PointsUpToIndex(l, Side(l.range), i, j);
  }

  /** The centre point (i = j = r) is the location's own cell, when in bounds. */
  lemma CentreIsPoint(l: Loc)
    requires InBounds(l) && l.range >= 0
    ensures PointAt(l, l.range, l.range) == Cell(l.x, l.y)
    ensures Cell(l.x, l.y) in Points(l)
  {
    WindowCentre(l.x, l.range);
    WindowCentre(l.y, l.range);
    assert 0 <= l.range < Side(l.range);
    PointsMember(l, Cell(l.x, l.y));
  }

  /** Offset r from the window's first coordinate (c - r) mod W is c again. */
  lemma WindowCentre(c: int, r: int)
    requires 0 <= c < W
    ensures ((W + c - r) % W + r) % W == c
  {
    var a := W + c - r;
    var q := a / W;
    assert a == q * W + a % W;
    assert a % W + r == W + c - q * W;
    assert (W + c - q * W) % W == c;
  }

  // ---------------------------------------------------------------------
  // get_adjacent_locations (list.remove of the centre)
  // ---------------------------------------------------------------------

  /** list.remove: drops the first element equal (by x and y) to l. */
  function RemoveFirst(s: seq<Loc>, l: Loc): seq<Loc>
  {
    if s == [] then []
    else if SameCell(s[0], l) then s[1..]
    else [s[0]] + RemoveFirst(s[1..], l)
  }

  lemma {:induction false} RemoveFirstFacts(s: seq<Loc>, l: Loc)
    requires exists k :: 0 <= k < |s| && SameCell(s[k], l)
    ensures |RemoveFirst(s, l)| == |s| - 1
    ensures forall p :: p in RemoveFirst(s, l) ==> p in s
    ensures Distinct(s) && (forall p :: p in s ==> p.range == 0) ==>
      forall p :: p in RemoveFirst(s, l) ==> !SameCell(p, l)
  {
    if !SameCell(s[0], l) {
      var k :| 0 <= k < |s| && SameCell(s[k], l);
      assert SameCell(s[1..][k - 1], l);
      RemoveFirstFacts(s[1..], l);
      if Distinct(s) {
        assert Distinct(s[1..]);
      }
    } else if Distinct(s) && (forall p :: p in s ==> p.range == 0) {
      forall p | p in s[1..]
        ensures !SameCell(p, l)
      {
        var k :| 0 <= k < |s[1..]| && s[1..][k] == p;
        assert s[k + 1] != s[0];
      }
    }
  }

  /** Earth.get_adjacent_locations: the square of radius r around l, less the centre. */
  function Adjacent(l: Loc, r: int): seq<Loc>
  {
    RemoveFirst(Points(Loc(l.x, l.y, r)), l)
  }

  /**
   * For an in-bounds centre: (2r+1)^2 - 1 cells, all in bounds, each at
   * distance between 1 and r, and the centre itself is not among them.
   */
  lemma AdjacentFacts(l: Loc, r: int)
    requires InBounds(l) && 0 <= r && Side(r) <= W
    ensures |Adjacent(l, r)| == Side(r) * Side(r) - 1
    ensures forall p :: p in Adjacent(l, r) ==>
      InBounds(p) && p.range == 0 && !SameCell(p, l) && 1 <= Dist(p, l) <= r
  {
    var c := Loc(l.x, l.y, r);
    CentreIsPoint(c);
    var k :| 0 <= k < |Points(c)| && Points(c)[k] == Cell(l.x, l.y);
    assert SameCell(Points(c)[k], l);
    AdjacentLength(l, r, k);
    AdjacentMembers(l, r, k);
  }

  lemma AdjacentLength(l: Loc, r: int, k: int)
    requires 0 <= r && 0 <= k < |Points(Loc(l.x, l.y, r))| && SameCell(Points(Loc(l.x, l.y, r))[k], l)
    ensures |Adjacent(l, r)| == Side(r) * Side(r) - 1
  {
    var c := Loc(l.x, l.y, r);
    PointsLength(c);
    RemoveFirstFacts(Points(c), l);
  }

  lemma AdjacentMembers(l: Loc, r: int, k: int)
    requires InBounds(l) && 0 <= r && Side(r) <= W
    requires 0 <= k < |Points(Loc(l.x, l.y, r))| && SameCell(Points(Loc(l.x, l.y, r))[k], l)
    ensures forall p :: p in Adjacent(l, r) ==>
      InBounds(p) && p.range == 0 && !SameCell(p, l) && 1 <= Dist(p, l) <= r
  {
    var c := Loc(l.x, l.y, r);
    var pts := Points(c);
    PointsInBounds(c);
    PointsDistinct(c);
    PointsWithinRange(c);
    RemoveFirstFacts(pts, l);
    forall p | p in Adjacent(l, r)
      ensures InBounds(p) && p.range == 0 && !SameCell(p, l) && 1 <= Dist(p, l) <= r
    {
      assert p in pts;
      DistZero(p, l);
    }
  }

  /** The adjacency counts the Earth tests expect. */
  lemma AdjacentExamples()
    ensures |Adjacent(Cell(5, 5), 1)| == 8
    ensures forall p :: p in Adjacent(Cell(5, 5), 1) ==> Dist(p, Cell(5, 5)) == 1
    ensures |Adjacent(Cell(10, 10), 2)| == 24
  {
    var a, b := Cell(5, 5), Cell(10, 10);
    assert Side(1) == 3 && Side(2) == 5;
    AdjacentFacts(a, 1);
    AdjacentFacts(b, 2);
  }
}
