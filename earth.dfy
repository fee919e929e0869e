/** The Earth environment of model/earth.py: a W x W grid of optional agents. */
module World {
  import opened Wrappers
  import opened Geometry
  import opened Entities

  /** FightStatus: WON = 1, LOST = 0, RUNNING = -1. */
  datatype FightStatus = Won | Lost | Running

  function StatusValue(s: FightStatus): (v: int)
    ensures -1 <= v <= 1
    ensures v == -1 <==> s == Running
  {
    match s
    case Won => 1
    case Lost => 0
    case Running => -1
  }

  /** The grid as a value: rows indexed by y, then columns by x. */
  type Grid = seq<seq<Agent?>>

  predicate IsGrid(g: Grid)
  {
    |g| == W && forall y :: 0 <= y < W ==> |g[y]| == W
  }

  /** The agents standing anywhere on a grid. */
  ghost function OccupantsOf(g: Grid): set<Agent?>
    requires IsGrid(g)
  {
    set y, x | 0 <= y < W && 0 <= x < W && g[y][x] != null :: g[y][x]
  }

  function EmptyGrid(): (g: Grid)
    ensures IsGrid(g)
    ensures forall y, x :: 0 <= y < W && 0 <= x < W ==> g[y][x] == null
  {
    seq(W, _ => seq(W, _ => null))
  }

  /** The cell a location names, its coordinates wrapped mod W. */
  function At(g: Grid, l: Loc): Agent?
    requires IsGrid(g)
  {
    g[l.y % W][l.x % W]
  }

  function SetCell(g: Grid, x: int, y: int, a: Agent?): (g': Grid)
    requires IsGrid(g) && 0 <= x < W && 0 <= y < W
    ensures IsGrid(g')
    ensures forall y', x' :: 0 <= y' < W && 0 <= x' < W ==>
      g'[y'][x'] == if x' == x && y' == y then a else g[y'][x']
  {
    g[y := g[y][x := a]]
  }

  /** The for loop of set_agent: a written into each point in turn. */
  function PlaceAll(g: Grid, a: Agent?, pts: seq<Loc>): (g': Grid)
    requires IsGrid(g)
    requires forall p :: p in pts ==> InBounds(p)
    ensures IsGrid(g')
  {
    if pts == [] then g
    else
      var last := pts[|pts| - 1];
      assert forall p :: p in pts[..|pts| - 1] ==> p in pts;
      assert last in pts;
      assert InBounds(last);
      SetCell(PlaceAll(g, a, pts[..|pts| - 1]), last.x, last.y, a)
  }

  /** Earth.set_agent as a function of the grid. */
  function Place(g: Grid, a: Agent?, l: Option<Loc>): (g': Grid)
    requires IsGrid(g)
    ensures IsGrid(g')
  {
    if l.None? then g
    else if l.value.range == 0 then SetCell(g, l.value.x % W, l.value.y % W, a)
    else if l.value.range > 0 then PointsInBounds(l.value); PlaceAll(g, a, Points(l.value))
    else g
  }

  /**
   * The cells set_agent writes: the wrapped cell for range 0, every point of
   * get_points for a positive range, none for a negative range or no location.
   */
  predicate Covers(l: Option<Loc>, x: int, y: int)
  {
    l.Some? &&
    if l.value.range == 0 then x == l.value.x % W && y == l.value.y % W
    else l.value.range > 0 && Cell(x, y) in Points(l.value)
  }

  lemma {:induction false} PlaceAllCell(g: Grid, a: Agent?, pts: seq<Loc>, x: int, y: int)
    requires IsGrid(g) && 0 <= x < W && 0 <= y < W
    requires forall p :: p in pts ==> InBounds(p) && p.range == 0
    ensures PlaceAll(g, a, pts)[y][x] == if Cell(x, y) in pts then a else g[y][x]
  {
    if pts != [] {
      var init := pts[..|pts| - 1];
      assert forall p :: p in init ==> p in pts;
      PlaceAllCell(g, a, init, x, y);
      assert pts == init + [pts[|pts| - 1]];
    }
  }

  /**
   * set_agent writes a into exactly the cells its location covers and leaves
   * every other cell as it was.
   */
  lemma PlaceCell(g: Grid, a: Agent?, l: Option<Loc>, x: int, y: int)
    requires IsGrid(g) && 0 <= x < W && 0 <= y < W
    ensures Place(g, a, l)[y][x] == if Covers(l, x, y) then a else g[y][x]
  {
    if l.Some? && l.value.range > 0 {
      PointsInBounds(l.value);
      PlaceAllCell(g, a, Points(l.value), x, y);
    }
  }

  /** Covers is membership in get_points for any range that is not negative. */
  lemma CoversIsPoints(l: Loc, x: int, y: int)
    requires 0 <= l.range
    ensures Covers(Some(l), x, y) <==> Cell(x, y) in Points(l)
  {
    if l.range == 0 {
      PointsOfRangeZero(l);
    }
  }

  /** After set_agent(a, loc) with range 0, get_agent(loc) is a. */
  lemma PlaceThenRead(g: Grid, a: Agent?, l: Loc)
    requires IsGrid(g) && l.range == 0
    ensures At(Place(g, a, Some(l)), l) == a
  {
    PlaceCell(g, a, Some(l), l.x % W, l.y % W);
  }

  /** Writes and reads both wrap: writing at (W+1, W+1) reads back at (1, 1). */
  lemma PlaceWraps(g: Grid, a: Agent?)
    requires IsGrid(g)
    ensures At(Place(g, a, Some(Cell(W + 1, W + 1))), Cell(1, 1)) == a
  {
    PlaceCell(g, a, Some(Cell(W + 1, W + 1)), 1, 1);
  }

  /** A ranged write fills exactly (2r+1)^2 cells when the square fits the world. */
  lemma {:induction false} PlaceAllDistinctCells(g: Grid, a: Agent?, l: Loc)
    requires IsGrid(g) && 0 < l.range && Side(l.range) <= W
    ensures |Points(l)| == Side(l.range) * Side(l.range)
    ensures forall p :: p in Points(l) ==> InBounds(p) && Place(g, a, Some(l))[p.y][p.x] == a
  {
    PointsLength(l);
    PointsInBounds(l);
    forall p | p in Points(l)
      ensures Place(g, a, Some(l))[p.y][p.x] == a
    {
      PlaceCell(g, a, Some(l), p.x, p.y);
    }
  }

  /** Everything get_state and the action rules read about the occupant of a cell. */
  datatype Seen = Seen(who: Agent, kind: Kind, health: real, location: Option<Loc>)

  type View = seq<seq<Option<Seen>>>

  predicate IsView(v: View)
  {
    |v| == W && forall y :: 0 <= y < W ==> |v[y]| == W
  }

  function SeenOf(a: Agent?): (s: Option<Seen>)
    reads a
    ensures s.None? <==> a == null
    ensures s.Some? ==> s.value.who == a && s.value.health == a.health && s.value.kind == a.kind
  {
    if a == null then None else Some(Seen(a, a.kind, a.health, a.location))
  }

  /** The occupant a view shows for a location, coordinates wrapped mod W. */
  function SeenAt(v: View, l: Loc): Option<Seen>
    requires IsView(v)
  {
    v[l.y % W][l.x % W]
  }

  predicate Vacant(v: View, l: Loc)
    requires IsView(v)
  {
    SeenAt(v, l).None?
  }

  function RoleAt(v: View, l: Loc): Option<Role>
    requires IsView(v)
  {
    if SeenAt(v, l).None? then None else Some(RoleOf(SeenAt(v, l).value.kind))
  }

  // Row-major scans: `[agent for row in grid for agent in row if ...]`.

  function Flatten<T>(rows: seq<seq<T>>): (s: seq<T>)
    ensures forall y, x :: 0 <= y < |rows| && 0 <= x < |rows[y]| ==> rows[y][x] in s
    ensures forall e :: e in s ==> exists y, x :: 0 <= y < |rows| && 0 <= x < |rows[y]| && rows[y][x] == e
  {
    if rows == [] then []
    else
      var rest := Flatten(rows[1..]);
      assert forall y :: 1 <= y < |rows| ==> rows[y] == rows[1..][y - 1];
      rows[0] + rest
  }

  /** The occupants of a grid of the given class, in row-major order. */
  function OfKind(cells: seq<Agent?>, k: Kind): (s: seq<Agent>)
    ensures forall a :: a in s ==> a in cells && a.kind == k
    ensures forall a :: a in cells && a != null && a.kind == k ==> a in s
  {
    if cells == [] then []
    else if cells[0] != null && cells[0].kind == k then [cells[0]] + OfKind(cells[1..], k)
    else OfKind(cells[1..], k)
  }

  /** The occupants a view shows with the given role, in row-major order. */
  function OfRole(cells: seq<Option<Seen>>, r: Role): (s: seq<Seen>)
    ensures forall o :: o in s ==> Some(o) in cells && RoleOf(o.kind) == r
    ensures forall c :: c in cells && c.Some? && RoleOf(c.value.kind) == r ==> c.value in s
  {
    if cells == [] then []
    else if cells[0].Some? && RoleOf(cells[0].value.kind) == r then [cells[0].value] + OfRole(cells[1..], r)
    else OfRole(cells[1..], r)
  }

  function Franklins(g: Grid): seq<Agent>
  {
    OfKind(Flatten(g), FranklinKind)
  }

  function Bridges(v: View): seq<Seen>
  {
    OfRole(Flatten(v), Bridge)
  }

  /** Every occupant listed has a location. */
  predicate Located(s: seq<Seen>)
  {
    forall o :: o in s ==> o.location.Some?
  }

  /** `[agent.get_location() for agent in s]`. */
  function LocsOf(s: seq<Seen>): (ls: seq<Loc>)
    requires Located(s)
    ensures |ls| == |s|
    ensures forall i :: 0 <= i < |s| ==> ls[i] == s[i].location.value
  {
    if s == [] then [] else [s[0].location.value] + LocsOf(s[1..])
  }

  class Earth {
    var grid: Grid
    var buffer: seq<Action>
    var status: FightStatus
    /**
     * The Silver Surfer presence flag that Retreat sets through set_ss_flag,
     * and the location it was last set for. Earth has no such method; the flag
     * is kept abstract here.
     */
    var surferPresent: bool
    var surferFlagAt: Option<Loc>

    ghost predicate Valid()
      reads this
    {
      IsGrid(grid)
    }

    /** Earth.__init__: every cell empty, an empty buffer, status RUNNING. */
    constructor ()
      ensures Valid()
      ensures grid == EmptyGrid() && buffer == [] && status == Running
      ensures !surferPresent && surferFlagAt == None
    {
      grid := EmptyGrid();
      buffer := [];
      status := Running;
      surferPresent := false;
      surferFlagAt := None;
    }

    /** The agents standing anywhere on the grid. */
    ghost function Occupants(): set<Agent?>
      reads this
      requires Valid()
    {
      OccupantsOf(grid)
    }

    /** get_agent: the occupant of the wrapped cell, or None for no location. */
    function GetAgent(l: Option<Loc>): (a: Agent?)
      reads this
      requires Valid()
      ensures l.None? ==> a == null
      ensures l.Some? ==> a == At(grid, l.value)
      ensures a != null ==> a in Occupants()
    {
      if l.None? then null else At(grid, l.value)
    }

    /** get_grid returns a shallow copy: it agrees cell by cell with get_agent. */
    function GetGrid(): (g: Grid)
      reads this
      requires Valid()
      ensures IsGrid(g)
      ensures forall y, x :: 0 <= y < W && 0 <= x < W ==> g[y][x] == GetAgent(Some(Cell(x, y)))
    {
      grid
    }

    function GetStatus(): FightStatus
      reads this
    {
      status
    }

    /** A value snapshot of every occupant with its class, health and location. */
    function View(): (v: View)
      reads this, Occupants()
      requires Valid()
      ensures IsView(v)
      ensures forall y, x :: 0 <= y < W && 0 <= x < W ==> v[y][x] == SeenOf(grid[y][x])
    {
      RowsView(W)
    }

    function RowView(y: int, n: nat): (r: seq<Option<Seen>>)
      reads this, Occupants()
      requires Valid() && 0 <= y < W && n <= W
      ensures |r| == n
      ensures forall x :: 0 <= x < n ==> r[x] == SeenOf(grid[y][x])
    {
      if n == 0 then []
      else
        assert grid[y][n - 1] != null ==> grid[y][n - 1] in Occupants();
        RowView(y, n - 1) + [SeenOf(grid[y][n - 1])]
    }

    function RowsView(n: nat): (r: View)
      reads this, Occupants()
      requires Valid() && n <= W
      ensures |r| == n
      ensures forall y :: 0 <= y < n ==> |r[y]| == W
      ensures forall y, x :: 0 <= y < n && 0 <= x < W ==> r[y][x] == SeenOf(grid[y][x])
    {
      if n == 0 then []
      else
        var rest := RowsView(n - 1);
        var row := RowView(n - 1, W);
        assert forall y :: 0 <= y < n - 1 ==> (rest + [row])[y] == rest[y];
        rest + [row]
    }

    lemma ViewAt(l: Loc)
      requires Valid()
      ensures SeenAt(View(), l) == SeenOf(GetAgent(Some(l)))
    {
    }

    /** set_agent: writes into the cells the location covers. */
    method SetAgent(a: Agent?, l: Option<Loc>)
      requires Valid()
      modifies this
      ensures Valid()
      ensures grid == Place(old(grid), a, l)
      ensures buffer == old(buffer) && status == old(status)
      ensures surferPresent == old(surferPresent) && surferFlagAt == old(surferFlagAt)
    {
      if l.Some? && l.value.range == 0 {
        grid := SetCell(grid, l.value.x % W, l.value.y % W, a);
      } else if l.Some? && l.value.range > 0 {
        var points := GetPoints(l.value);
        PointsInBounds(l.value);
        ghost var g0 := grid;
        for i := 0 to |points|
          invariant IsGrid(grid)
          invariant grid == PlaceAll(g0, a, points[..i])
          invariant buffer == old(buffer) && status == old(status)
          invariant surferPresent == old(surferPresent) && surferFlagAt == old(surferFlagAt)
        {
          var p := points[i];
          assert points[..i + 1][..i] == points[..i];
          grid := grid[p.y := grid[p.y][p.x := a]];
        }
        assert points[..|points|] == points;
      }
    }

    /**
     * get_adjacent_locations: the points of the square of radius r around l,
     * less l itself. list.remove fails unless l is an in-bounds cell and r is
     * not negative.
     */
    method GetAdjacentLocations(l: Loc, r: int) returns (locs: seq<Loc>)
      requires InBounds(l) && 0 <= r
      ensures locs == Adjacent(l, r)
    {
      locs := GetPoints(Loc(l.x, l.y, r));
      PointsInBounds(Loc(l.x, l.y, r));
      PointsWithinRange(Loc(l.x, l.y, r));
      CentreIsPoint(Loc(l.x, l.y, r));
      var k :| 0 <= k < |locs| && locs[k] == Cell(l.x, l.y);
      assert SameCell(locs[k], l);
      RemoveFirstFacts(locs, l);
      locs := RemoveFirst(locs, l);
    }

    /** register_action: appends a non-None action; None is ignored. */
    method RegisterAction(a: Option<Action>)
      modifies this
      ensures buffer == old(buffer) + (if a.Some? then [a.value] else [])
      ensures grid == old(grid) && status == old(status)
      ensures surferPresent == old(surferPresent) && surferFlagAt == old(surferFlagAt)
    {
      if a.Some? {
        buffer := buffer + [a.value];
      }
    }

    /** clear: a fresh empty grid, an empty buffer and status RUNNING. */
    method Clear()
      modifies this
      ensures Valid()
      ensures grid == EmptyGrid() && buffer == [] && status == Running
      ensures surferPresent == old(surferPresent) && surferFlagAt == old(surferFlagAt)
    {
      grid := EmptyGrid();
      buffer := [];
      status := Running;
    }

    /** execute_actions has no body in the source: nothing is resolved. */
    method ExecuteActions()
    {
    }

    /** The set_ss_flag that Retreat calls. */
    method SetSurferFlag(present: bool, l: Loc)
      modifies this
      ensures surferPresent == present && surferFlagAt == Some(l)
      ensures grid == old(grid) && buffer == old(buffer) && status == old(status)
    {
      surferPresent := present;
      surferFlagAt := Some(l);
    }
  }

  /** A fresh or cleared grid has no occupant anywhere. */
  lemma EmptyGridHasNoOccupant(l: Loc)
    ensures At(EmptyGrid(), l) == null
  {
  }

  /** A cell as seen once `who` stands at `dest`: its location changes, nothing else does. */
  function MovedSeen(c: Option<Seen>, who: Agent, dest: Option<Loc>): (r: Option<Seen>)
    ensures r.None? <==> c.None?
    ensures c.Some? && c.value.who == who ==> r == Some(Seen(who, c.value.kind, c.value.health, dest))
    ensures c.Some? && c.value.who != who ==> r == c
  {
    if c.Some? && c.value.who == who then Some(c.value.(location := dest)) else c
  }

  /** The view `v` with the agent `who` shown at `dest` in every cell that holds it. */
  function Moved(v: View, who: Agent, dest: Option<Loc>): (r: View)
    requires IsView(v)
    ensures IsView(r)
    ensures forall y, x :: 0 <= y < W && 0 <= x < W ==> r[y][x] == MovedSeen(v[y][x], who, dest)
  {
    seq(W, y requires 0 <= y < W => seq(W, x requires 0 <= x < W => MovedSeen(v[y][x], who, dest)))
  }

  /**
   * A call that changes neither the grid nor any agent on it but the
   * location of `who` shows `who` at its new location, and every other cell
   * as it was.
   */
  twostate lemma ViewMoved(env: Earth, new who: Agent)
    requires old(env.Valid()) && env.grid == old(env.grid)
    requires forall a | a in old(env.Occupants()) ::
      if a == who then a.health == old(a.health) else unchanged(a)
    ensures env.Valid() && env.View() == Moved(old(env.View()), who, who.location)
  {
    var v0, v1 := old(env.View()), env.View();
    var m := Moved(v0, who, who.location);
    forall y | 0 <= y < W
      ensures v1[y] == m[y]
    {
      forall x | 0 <= x < W
        ensures v1[y][x] == m[y][x]
      {
        var a := env.grid[y][x];
        if a != null && a != who {
          assert a in old(env.Occupants());
        }
      }
    }
  }

  /**
   * A call that changes neither the grid nor any agent standing on it
   * leaves the view, and the set of occupants, as they were.
   */
  twostate lemma ViewKept(env: Earth)
    requires old(env.Valid()) && env.grid == old(env.grid)
    requires forall a | a in old(env.Occupants()) :: unchanged(a)
    ensures env.Valid() && env.Occupants() == old(env.Occupants()) && env.View() == old(env.View())
  {
    var v0, v1 := old(env.View()), env.View();
    forall y | 0 <= y < W
      ensures v1[y] == v0[y]
    {
      forall x | 0 <= x < W
        ensures v1[y][x] == v0[y][x]
      {
        var a := env.grid[y][x];
        if a != null {
          assert a in old(env.Occupants());
        }
      }
    }
  }
}
