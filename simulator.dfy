/**
 * controller/simulator.py: the initial roster, the search for an empty
 * square, one update step over the agent list, and the reset that ends an
 * episode. The arrival of the Silver Surfer and Galactus is not modelled.
 */
module Simulation {
  import opened Wrappers
  import opened Geometry
  import opened Entities
  import opened World
  import opened Policy
  import opened SueStorm

  // ---------------------------------------------------------------------
  // __find_empty_locations
  // ---------------------------------------------------------------------

  /** The cell at offset (dx, dy) from (x, y), wrapped round the grid, is empty. */
  predicate FreeAt(g: Grid, x: int, y: int, dx: int, dy: int)
    requires IsGrid(g)
  {
    g[(y + dy) % W][(x + dx) % W] == null
  }

  /** Every cell of the (2r+1)-square whose top-left corner is (x, y) is empty. */
  predicate WindowFree(g: Grid, x: int, y: int, r: int)
    requires IsGrid(g)
  {
    forall dy, dx :: 0 <= dy < 2 * r + 1 && 0 <= dx < 2 * r + 1 ==> FreeAt(g, x, y, dx, dy)
  }

  /** The location returned for the window with corner (x, y): its centre, with range r. */
  function Centre(x: int, y: int, r: int): Loc
  {
    Loc((x + r) % W, (y + r) % W, r)
  }

  /** (x', y') is scanned before (x, y): rows (y) outer, columns (x) inner. */
  predicate Before(x': int, y': int, x: int, y: int)
  {
    y' < y || (y' == y && x' < x)
  }

  /** The corner of the first free window at or after (x, y) in scan order. */
  function FirstFreeWindow(g: Grid, r: int, x: nat, y: nat): Option<(int, int)>
    requires IsGrid(g) && x < W
    decreases W - y, W - x
  {
    if y >= W then None
    else if WindowFree(g, x, y, r) then Some((x, y))
    else if x + 1 < W then FirstFreeWindow(g, r, x + 1, y)
    else FirstFreeWindow(g, r, 0, y + 1)
  }

  /** What __find_empty_locations(r) returns for a grid. */
  function FindEmpty(g: Grid, r: int): Option<Loc>
    requires IsGrid(g)
  {
    match FirstFreeWindow(g, r, 0, 0)
    case None => None
    case Some(c) => Some(Centre(c.0, c.1, r))
  }

  lemma {:induction false} FirstFreeWindowNone(g: Grid, r: int, x: nat, y: nat)
    requires IsGrid(g) && x < W
    requires FirstFreeWindow(g, r, x, y).None?
    ensures forall y', x' :: 0 <= x' < W && 0 <= y' < W && !Before(x', y', x, y) ==> !WindowFree(g, x', y', r)
    decreases W - y, W - x
  {
    if y < W {
      if x + 1 < W {
        FirstFreeWindowNone(g, r, x + 1, y);
      } else {
        FirstFreeWindowNone(g, r, 0, y + 1);
      }
    }
  }

  lemma {:induction false} FirstFreeWindowSome(g: Grid, r: int, x: nat, y: nat)
    requires IsGrid(g) && x < W
    requires FirstFreeWindow(g, r, x, y).Some?
    ensures var c := FirstFreeWindow(g, r, x, y).value;
      0 <= c.0 < W && 0 <= c.1 < W && !Before(c.0, c.1, x, y) && WindowFree(g, c.0, c.1, r)
      && forall y', x' :: 0 <= x' < W && 0 <= y' < W && !Before(x', y', x, y) && Before(x', y', c.0, c.1) ==>
           !WindowFree(g, x', y', r)
    decreases W - y, W - x
  {
    if y < W && !WindowFree(g, x, y, r) {
      if x + 1 < W {
        FirstFreeWindowSome(g, r, x + 1, y);
      } else {
        FirstFreeWindowSome(g, r, 0, y + 1);
      }
    }
  }

  /**
   * A found location is the centre of the first all-empty window in scan
   * order: that window is empty and every window scanned before it holds an
   * occupant.
   */
  lemma FindEmptyFirstFit(g: Grid, r: int)
    requires IsGrid(g) && FindEmpty(g, r).Some?
    ensures exists x, y :: (0 <= x < W && 0 <= y < W
      && FindEmpty(g, r) == Some(Centre(x, y, r)) && WindowFree(g, x, y, r)
      && (forall y', x' :: 0 <= x' < W && 0 <= y' < W && Before(x', y', x, y) ==> !WindowFree(g, x', y', r)))
  {
    FirstFreeWindowSome(g, r, 0, 0);
    var c := FirstFreeWindow(g, r, 0, 0).value;
    assert FindEmpty(g, r) == Some(Centre(c.0, c.1, r));
  }

  /** None is returned exactly when every window holds an occupant. */
  lemma FindEmptyNone(g: Grid, r: int)
    requires IsGrid(g)
    ensures FindEmpty(g, r).None? <==> forall y, x :: 0 <= x < W && 0 <= y < W ==> !WindowFree(g, x, y, r)
  {
    if FindEmpty(g, r).None? {
      FirstFreeWindowNone(g, r, 0, 0);
    } else {
      FirstFreeWindowSome(g, r, 0, 0);
    }
  }

  /** On an empty grid the first window fits: the result is (r, r) wrapped, with range r. */
  lemma FindEmptyOnEmptyGrid(r: int)
    ensures FindEmpty(EmptyGrid(), r) == Some(Loc(r % W, r % W, r))
    ensures 0 <= r < W ==> FindEmpty(EmptyGrid(), r) == Some(Loc(r, r, r))
  {
    assert WindowFree(EmptyGrid(), 0, 0, r);
  }

  /** The corner of the window the centre (x + r) mod W stands for is x again. */
  lemma CornerOfCentre(x: int, r: int, i: int)
    requires 0 <= x < W
    ensures ((W + (x + r) % W - r) % W + i) % W == (x + i) % W
  {
    var q := (x + r) / W;
    assert (x + r) % W == x + r - W * q;
    assert (W + (x + r) % W - r) % W == x;
  }

  /** The (i, j)-th point of the found location's get_points lies in its free window. */
  lemma WindowPointFree(g: Grid, x: int, y: int, r: int, i: int, j: int)
    requires IsGrid(g) && 0 <= x < W && 0 <= y < W && WindowFree(g, x, y, r)
    requires 0 <= i < Side(r) && 0 <= j < Side(r)
    ensures At(g, PointAt(Centre(x, y, r), i, j)) == null
  {
    PointOfCentre(x, y, r, i, j);
    AtCell(g, (x + i) % W, (y + j) % W);
    assert FreeAt(g, x, y, i, j);
  }

  lemma PointOfCentre(x: int, y: int, r: int, i: int, j: int)
    requires 0 <= x < W && 0 <= y < W
    ensures PointAt(Centre(x, y, r), i, j) == Cell((x + i) % W, (y + j) % W)
  {
    CornerOfCentre(x, r, i);
    CornerOfCentre(y, r, j);
  }

  lemma AtCell(g: Grid, x: int, y: int)
    requires IsGrid(g) && 0 <= x < W && 0 <= y < W
    ensures At(g, Cell(x, y)) == g[y][x]
  {
  }

  /**
   * Every point get_points yields for a found location is empty, so placing
   * an agent there with set_agent overwrites no occupant.
   */
  lemma FoundWindowIsEmpty(g: Grid, r: int)
    requires IsGrid(g) && FindEmpty(g, r).Some?
    ensures forall p :: p in Points(FindEmpty(g, r).value) ==> At(g, p) == null
  {
    FirstFreeWindowSome(g, r, 0, 0);
    var c := FirstFreeWindow(g, r, 0, 0).value;
    var l := Centre(c.0, c.1, r);
    assert FindEmpty(g, r).value == l;
    forall p | p in Points(l)
      ensures At(g, p) == null
    {
      PointsMember(l, p);
      var i, j :| 0 <= i < Side(l.range) && 0 <= j < Side(l.range) && p == PointAt(l, i, j);
      WindowPointFree(g, c.0, c.1, r, i, j);
    }
  }

  // ---------------------------------------------------------------------
  // The initial roster
  // ---------------------------------------------------------------------

  /** The classes __generate_initial_population creates, in order. */
  const RosterKinds: seq<Kind> := [BridgeKind, BridgeKind, BridgeKind, BridgeKind,
    ReedRichardsKind, SueStormKind, TheThingKind, HumanTorchKind, FranklinKind, HeadquarterKind]

  /** Where each is placed. */
  const RosterLocs: seq<Loc> := [Cell(5, 5), Cell(15, 5), Cell(5, 15), Cell(15, 15),
    Cell(0, 0), Cell(1, 1), Cell(4, 4), Cell(13, 13), Cell(6, 6), Cell(0, 19)]

  /** Bridges start at initial_bridge_health, everyone else at the default 1.0. */
  function RosterHealth(i: int): real
  {
    if i < 4 then InitialBridgeHealth else 1.0
  }

  /** a is the i-th roster agent as constructed. */
  predicate IsRosterEntry(a: Agent, i: int)
    reads a
    requires 0 <= i < 10
  {
    a.kind == RosterKinds[i] && a.location == Some(RosterLocs[i]) && a.health == RosterHealth(i) && a.q == map[]
  }

  /** The grid holds the i-th roster agent at its location. */
  predicate RosterOnGrid(g: Grid, i: int)
    requires IsGrid(g) && 0 <= i < 10
    reads RosterCell(g, i)
  {
    var l := RosterLocs[i];
    g[l.y][l.x] != null && IsRosterEntry(g[l.y][l.x], i)
  }

  /** The roster cells are distinct, in bounds, and four of them hold bridges. */
  lemma RosterFacts()
    ensures |RosterKinds| == |RosterLocs| == 10
    ensures forall i :: 0 <= i < 10 ==> InBounds(RosterLocs[i]) && RosterLocs[i].range == 0
    ensures forall i, j :: 0 <= i < j < 10 ==> !SameCell(RosterLocs[i], RosterLocs[j])
    ensures forall i :: 0 <= i < 10 ==> (RosterKinds[i] == BridgeKind <==> i < 4)
  {
  }

  /** The index of the roster location at (x, y), or 10 when there is none. */
  function RosterIndex(x: int, y: int): (i: int)
    ensures 0 <= i <= 10
    ensures i < 10 ==> RosterLocs[i] == Cell(x, y)
  {
    if x == 5 && y == 5 then 0
    else if x == 15 && y == 5 then 1
    else if x == 5 && y == 15 then 2
    else if x == 15 && y == 15 then 3
    else if x == 0 && y == 0 then 4
    else if x == 1 && y == 1 then 5
    else if x == 4 && y == 4 then 6
    else if x == 13 && y == 13 then 7
    else if x == 6 && y == 6 then 8
    else if x == 0 && y == 19 then 9
    else 10
  }

  lemma RosterIndexOf(j: int)
    requires 0 <= j < 10
    ensures RosterIndex(RosterLocs[j].x, RosterLocs[j].y) == j
  {
  }

  /** The grid cell of the i-th roster location. */
  ghost function RosterCell(g: Grid, i: int): Agent?
    requires IsGrid(g) && 0 <= i < 10
  {
    g[RosterLocs[i].y][RosterLocs[i].x]
  }

  /** g with objs[j] written at the j-th roster location, for each j < |objs|. */
  ghost function RosterGrid(g: Grid, objs: seq<Agent>): (g': Grid)
    requires IsGrid(g) && |objs| <= 10
    ensures IsGrid(g')
    ensures forall y, x | 0 <= y < W && 0 <= x < W ::
      g'[y][x] == if RosterIndex(x, y) < |objs| then objs[RosterIndex(x, y)] else g[y][x]
  {
    seq(W, y requires 0 <= y < W =>
      seq(W, x requires 0 <= x < W => if RosterIndex(x, y) < |objs| then objs[RosterIndex(x, y)] else g[y][x]))
  }

  /** With no roster agents written the grid is unchanged. */
  lemma RosterGridNone(g: Grid)
    requires IsGrid(g)
    ensures RosterGrid(g, []) == g
  {
    forall y | 0 <= y < W
      ensures RosterGrid(g, [])[y] == g[y]
    {
    }
  }

  /** Writing the next roster agent at its location extends the roster grid by one. */
  lemma RosterGridStep(g: Grid, objs: seq<Agent>, a: Agent)
    requires IsGrid(g) && |objs| < 10
    ensures RosterGrid(g, objs + [a]) == SetCell(RosterGrid(g, objs), RosterLocs[|objs|].x, RosterLocs[|objs|].y, a)
  {
    var k := |objs|;
    var lhs := RosterGrid(g, objs + [a]);
    var rhs := SetCell(RosterGrid(g, objs), RosterLocs[k].x, RosterLocs[k].y, a);
    RosterIndexOf(k);
    forall y | 0 <= y < W
      ensures lhs[y] == rhs[y]
    {
      forall x | 0 <= x < W
        ensures lhs[y][x] == rhs[y][x]
      {
        var i := RosterIndex(x, y);
        if i < k {
          assert (objs + [a])[i] == objs[i];
          assert !(x == RosterLocs[k].x && y == RosterLocs[k].y);
        } else if i == k {
          assert (objs + [a])[i] == a;
        } else {
          assert !(x == RosterLocs[k].x && y == RosterLocs[k].y);
        }
      }
    }
  }

  /** set_agent at an in-bounds location of range 0 writes exactly that cell. */
  lemma PlaceOneCell(g: Grid, a: Agent?, l: Loc)
    requires IsGrid(g) && InBounds(l) && l.range == 0
    ensures Place(g, a, Some(l)) == SetCell(g, l.x, l.y, a)
  {
  }

  /** Every agent in the list can run actions(): those that act stand in bounds or nowhere. */
  predicate AgentsReady(agents: seq<Agent>)
    reads set a | a in agents
  {
    forall a :: a in agents ==> (Acting(a.kind) && a.location.Some? ==> InBounds(a.location.value))
  }

  /** The actions update registers: the picked ones, in order. */
  function Registered(picked: seq<Option<Pick>>): (acts: seq<Action>)
    ensures |acts| <= |picked|
  {
    if picked == [] then []
    else
      var last := picked[|picked| - 1];
      var init := picked[..|picked| - 1];
      assert picked == init + [last];
      Registered(init) + (if last.Some? && last.value.Picked? then [last.value.action] else [])
  }

  /**
   * What one agent's turn in __update yields, given its class and its
   * location when the turn began: nothing without a location (Franklin
   * aside, whose location SueStorm may have set earlier in the step), no
   * action for the classes whose actions() is None, a picked action for
   * SueStorm and Galactus, and the empty-list pick for TheThing and
   * SilverSurfer.
   */
  predicate TurnOutcome(k: Kind, l: Option<Loc>, p: Option<Pick>)
  {
    (k != FranklinKind ==> (p.None? <==> l.None?))
    && (!Acting(k) ==> p == None || p == Some(NoAction))
    && (l.Some? && k in {SueStormKind, GalactusKind} ==> p.Some? && p.value.Picked?)
    && (l.Some? && k in {TheThingKind, SilverSurferKind} ==> p == Some(EmptyChoice))
  }

  /** The agents' locations, as a value. */
  ghost function Locations(agents: seq<Agent>): (locs: seq<Option<Loc>>)
    reads set a | a in agents
    ensures |locs| == |agents| && forall j | 0 <= j < |agents| :: locs[j] == agents[j].location
  {
    if agents == [] then [] else Locations(agents[..|agents| - 1]) + [agents[|agents| - 1].location]
  }

  /** The agents' health, as a value. */
  ghost function Healths(agents: seq<Agent>): (hs: seq<real>)
    reads set a | a in agents
    ensures |hs| == |agents| && forall j | 0 <= j < |agents| :: hs[j] == agents[j].health
  {
    if agents == [] then [] else Healths(agents[..|agents| - 1]) + [agents[|agents| - 1].health]
  }

  /** The agents' Q-tables, as a value. */
  ghost function Tables(agents: seq<Agent>): (qs: seq<map<QKey, real>>)
    reads set a | a in agents
    ensures |qs| == |agents| && forall j | 0 <= j < |agents| :: qs[j] == agents[j].q
  {
    if agents == [] then [] else Tables(agents[..|agents| - 1]) + [agents[|agents| - 1].q]
  }

  /** The registered actions are exactly the picked ones: each comes from a pick, and no pick is lost. */
  lemma {:induction false} RegisteredExactly(picked: seq<Option<Pick>>)
    ensures forall k :: 0 <= k < |Registered(picked)| ==> Some(Picked(Registered(picked)[k])) in picked
    ensures forall j :: 0 <= j < |picked| && picked[j].Some? && picked[j].value.Picked? ==>
      picked[j].value.action in Registered(picked)
  {
    if picked != [] {
      var init := picked[..|picked| - 1];
      assert picked == init + [picked[|picked| - 1]];
      RegisteredExactly(init);
    }
  }

  /** Registering one more pick after a buffer that already holds the earlier ones. */
  lemma RegisteredSnoc(buffer: seq<Action>, picked: seq<Option<Pick>>, p: Option<Pick>)
    ensures buffer + Registered(picked + [p])
         == buffer + Registered(picked) + (if p.Some? && p.value.Picked? then [p.value.action] else [])
  {
    assert (picked + [p])[..|picked|] == picked;
  }

  /** The agents' classes, as a value. */
  ghost function KindsOf(agents: seq<Agent>): (kinds: seq<Kind>)
    ensures |kinds| == |agents| && forall j | 0 <= j < |agents| :: kinds[j] == agents[j].kind
  {
    seq(|agents|, j requires 0 <= j < |agents| => agents[j].kind)
  }

  /**
   * The picks so far, one per agent in order, each the outcome of that
   * agent's turn; only the last may be the empty-list pick.
   */
  ghost predicate Outcomes(kinds: seq<Kind>, locs: seq<Option<Loc>>, picked: seq<Option<Pick>>)
    decreases |picked|
  {
    |picked| <= |kinds| == |locs|
    && (picked != [] ==>
          var n := |picked| - 1;
          Outcomes(kinds, locs, picked[..n])
          && TurnOutcome(kinds[n], locs[n], picked[n])
          && (0 < n ==> picked[n - 1] != Some(EmptyChoice)))
  }

  lemma OutcomesSnoc(kinds: seq<Kind>, locs: seq<Option<Loc>>, picked: seq<Option<Pick>>, p: Option<Pick>)
    requires Outcomes(kinds, locs, picked) && |picked| < |kinds|
    requires picked == [] || picked[|picked| - 1] != Some(EmptyChoice)
    requires TurnOutcome(kinds[|picked|], locs[|picked|], p)
    ensures Outcomes(kinds, locs, picked + [p])
  {
    assert (picked + [p])[..|picked|] == picked;
  }

  /** One more pick: the outcomes extend, and so does the registered list. */
  lemma PickedSnoc(kinds: seq<Kind>, locs: seq<Option<Loc>>, picked: seq<Option<Pick>>, p: Option<Pick>,
                   buffer: seq<Action>)
    requires Outcomes(kinds, locs, picked) && |picked| < |kinds|
    requires picked == [] || picked[|picked| - 1] != Some(EmptyChoice)
    requires TurnOutcome(kinds[|picked|], locs[|picked|], p)
    ensures Outcomes(kinds, locs, picked + [p])
    ensures buffer + Registered(picked + [p])
         == buffer + Registered(picked) + (if p.Some? && p.value.Picked? then [p.value.action] else [])
  {
    OutcomesSnoc(kinds, locs, picked, p);
    RegisteredSnoc(buffer, picked, p);
  }

  /** The Franklins standing on the grid: the only agents a step can move, as SueStorm carries them. */
  ghost function FranklinsOn(env: Earth): set<Agent>
    reads env
    requires env.Valid()
  {
    set a: Agent | a in env.Occupants() && a.kind == FranklinKind
  }

  /**
   * One turn seen against the views: an agent with a location (a Franklin
   * aside) picks what pick_action returns on the view its turn found and
   * the view actions() left; only SueStorm's turn changes the view, and it
   * leaves the view SueAfter gives for the view her turn found.
   */
  ghost predicate TurnPicksOn(agent: Agent, l: Option<Loc>, health: real, q: map<QKey, real>,
                              before: View, after: View, explore: Option<nat>, pick: nat, p: Option<Pick>)
  {
    (agent.kind != FranklinKind && l.Some? ==>
       p.Some? && PicksOn(agent, l, health, q, before, after, explore, pick, p.value))
    && (agent.kind != SueStormKind ==> after == before)
    && (agent.kind == SueStormKind && l.Some? ==> IsView(before) && after == SueAfter(agent, l.value, before))
  }

  /**
   * The picks so far, one per agent in order, each a turn against the views
   * before and after it, with the agent's location, health and Q-table as
   * the step began.
   */
  ghost predicate PicksAll(agents: seq<Agent>, locs: seq<Option<Loc>>, hs: seq<real>, qs: seq<map<QKey, real>>,
                           explore: seq<Option<nat>>, picks: seq<nat>, picked: seq<Option<Pick>>, views: seq<View>)
    decreases |picked|
  {
    |views| == |picked| + 1 && |picked| <= |agents|
    && |locs| == |agents| && |hs| == |agents| && |qs| == |agents| && |explore| == |agents| && |picks| == |agents|
    && (picked != [] ==>
          var n := |picked| - 1;
          PicksAll(agents, locs, hs, qs, explore, picks, picked[..n], views[..n + 1])
          && TurnPicksOn(agents[n], locs[n], hs[n], qs[n], views[n], views[n + 1], explore[n], picks[n], picked[n]))
  }

  /** One more turn against the views: the picks and views extend together. */
  lemma PicksAllSnoc(agents: seq<Agent>, locs: seq<Option<Loc>>, hs: seq<real>, qs: seq<map<QKey, real>>,
                     explore: seq<Option<nat>>, picks: seq<nat>, picked: seq<Option<Pick>>, views: seq<View>,
                     p: Option<Pick>, v: View)
    requires PicksAll(agents, locs, hs, qs, explore, picks, picked, views) && |picked| < |agents|
    requires var i := |picked|;
      TurnPicksOn(agents[i], locs[i], hs[i], qs[i], views[i], v, explore[i], picks[i], p)
    ensures PicksAll(agents, locs, hs, qs, explore, picks, picked + [p], views + [v])
  {
    assert (picked + [p])[..|picked|] == picked;
    assert (views + [v])[..|picked| + 1] == views;
  }

  /** Picks built turn by turn: every agent's pick is its turn on the views before and after it. */
  lemma {:induction false} PicksAllEach(agents: seq<Agent>, locs: seq<Option<Loc>>, hs: seq<real>, qs: seq<map<QKey, real>>,
                                        explore: seq<Option<nat>>, picks: seq<nat>, picked: seq<Option<Pick>>, views: seq<View>)
    requires PicksAll(agents, locs, hs, qs, explore, picks, picked, views)
    ensures forall j | 0 <= j < |picked| ::
      TurnPicksOn(agents[j], locs[j], hs[j], qs[j], views[j], views[j + 1], explore[j], picks[j], picked[j])
  {
    if picked != [] {
      var n := |picked| - 1;
      PicksAllEach(agents, locs, hs, qs, explore, picks, picked[..n], views[..n + 1]);
      assert forall j | 0 <= j < n :: picked[..n][j] == picked[j];
      assert forall j | 0 <= j <= n :: views[..n + 1][j] == views[j];
    }
  }

  lemma {:induction false} OutcomesEach(kinds: seq<Kind>, locs: seq<Option<Loc>>, picked: seq<Option<Pick>>)
    requires Outcomes(kinds, locs, picked)
    ensures forall j | 0 <= j < |picked| :: TurnOutcome(kinds[j], locs[j], picked[j])
    ensures forall j | 0 <= j < |picked| - 1 :: picked[j] != Some(EmptyChoice)
  {
    if picked != [] {
      var n := |picked| - 1;
      OutcomesEach(kinds, locs, picked[..n]);
      assert forall j | 0 <= j < n :: picked[..n][j] == picked[j];
    }
  }

  class Simulator {
    var simulationStep: int
    const earth: Earth
    var agents: seq<Agent>

    /** Simulator.__init__: step 0, a fresh Earth, and the initial roster on it. */
    constructor ()
      ensures simulationStep == 0 && fresh(earth)
      ensures earth.Valid() && earth.buffer == [] && earth.status == Running
      ensures Stocked(0, EmptyGrid())
      ensures Populated(earth) && AgentsReady(agents)
    {
      simulationStep := 0;
      earth := new Earth();
      agents := [];
      new;
      GenerateInitialPopulation();
      RosterPopulates();
    }

    /**
     * The ten roster agents follow position n0 of the list and stand on the
     * grid at their locations: the bridges as the same objects, the others
     * as separate instances. Every other cell is as in g0.
     */
    ghost predicate Stocked(n0: int, g0: Grid)
      requires earth.Valid() && IsGrid(g0) && 0 <= n0
      reads this, earth, agents, set j | 0 <= j < 10 :: RosterCell(earth.grid, j)
    {
      |agents| == n0 + 10
      && (forall m | n0 <= m < |agents| :: IsRosterEntry(agents[m], m - n0))
      && (forall j | 0 <= j < 10 :: RosterOnGrid(earth.grid, j))
      && (forall m | n0 <= m < |agents| :: (m - n0 < 4 <==> RosterCell(earth.grid, m - n0) == agents[m]))
      && (forall y, x | 0 <= y < W && 0 <= x < W && RosterIndex(x, y) == 10 :: earth.grid[y][x] == g0[y][x])
    }

    /**
     * Part way through the roster: the list is ag0 followed by `listed`, the
     * grid is g0 with `placed` written at the roster locations, and the j-th
     * of each is the j-th roster agent, the same object exactly for bridges.
     */
    ghost predicate Built(ag0: seq<Agent>, g0: Grid, listed: seq<Agent>, placed: seq<Agent>)
      requires earth.Valid() && IsGrid(g0)
      reads this, earth, listed, placed
    {
      |listed| == |placed| <= 10 && agents == ag0 + listed
      && earth.grid == RosterGrid(g0, placed)
      && forall j | 0 <= j < |listed| ::
           IsRosterEntry(listed[j], j) && IsRosterEntry(placed[j], j) && (j < 4 <==> listed[j] == placed[j])
    }

    lemma BuiltIsStocked(ag0: seq<Agent>, g0: Grid, listed: seq<Agent>, placed: seq<Agent>)
      requires earth.Valid() && IsGrid(g0) && Built(ag0, g0, listed, placed) && |listed| == 10
      ensures Stocked(|ag0|, g0)
      ensures forall j | 0 <= j < 10 :: RosterCell(earth.grid, j) == placed[j]
    {
      var n0 := |ag0|;
      forall j | 0 <= j < 10
        ensures RosterCell(earth.grid, j) == placed[j]
      {
        RosterIndexOf(j);
      }
      forall j | 0 <= j < 10
        ensures RosterOnGrid(earth.grid, j)
      {
        assert RosterCell(earth.grid, j) == placed[j];
      }
      forall m | n0 <= m < |agents|
        ensures IsRosterEntry(agents[m], m - n0)
        ensures m - n0 < 4 <==> RosterCell(earth.grid, m - n0) == agents[m]
      {
        assert agents[m] == listed[m - n0];
        assert RosterCell(earth.grid, m - n0) == placed[m - n0];
      }
    }

    /** The roster on an otherwise empty grid leaves it populated, and every agent ready to act. */
    lemma RosterPopulates()
      requires earth.Valid() && Stocked(0, EmptyGrid())
      ensures Populated(earth) && AgentsReady(agents)
    {
      RosterFacts();
      forall y, x | 0 <= y < W && 0 <= x < W && earth.grid[y][x] != null
        ensures earth.grid[y][x].location.Some?
      {
        assert RosterOnGrid(earth.grid, RosterIndex(x, y));
      }
      assert RosterOnGrid(earth.grid, 0);
      assert earth.grid[5][5] != null && earth.grid[5][5].kind == BridgeKind;
      forall a | a in agents
        ensures Acting(a.kind) && a.location.Some? ==> InBounds(a.location.value)
      {
        var m :| 0 <= m < 10 && agents[m] == a;
        assert IsRosterEntry(agents[m], m);
      }
    }

    /**
     * __generate_initial_population: four bridges, each the same object in the
     * list and on the grid, then Reed Richards, Sue Storm, the Thing, the
     * Human Torch, Franklin and the Headquarters, each appended to the list
     * and placed on the grid as a second, separate instance.
     */
    method GenerateInitialPopulation()
      requires earth.Valid()
      modifies this, earth
      ensures earth.Valid() && earth.buffer == old(earth.buffer) && earth.status == old(earth.status)
      ensures simulationStep == old(simulationStep)
      ensures |agents| >= |old(agents)| && agents[..|old(agents)|] == old(agents)
      ensures Stocked(|old(agents)|, old(earth.grid))
    {
      RosterFacts();
      ghost var ag0, g0 := agents, earth.grid;
      ghost var listed, placed := PlaceBridges();
      listed, placed := AddNext(ReedRichardsKind, Cell(0, 0), ag0, g0, listed, placed);
      listed, placed := AddNext(SueStormKind, Cell(1, 1), ag0, g0, listed, placed);
      listed, placed := AddNext(TheThingKind, Cell(4, 4), ag0, g0, listed, placed);
      listed, placed := AddNext(HumanTorchKind, Cell(13, 13), ag0, g0, listed, placed);
      listed, placed := AddNext(FranklinKind, Cell(6, 6), ag0, g0, listed, placed);
      listed, placed := AddNext(HeadquarterKind, Cell(0, 19), ag0, g0, listed, placed);
      BuiltIsStocked(ag0, g0, listed, placed);
    }

    /** The first loop of __generate_initial_population: the four bridges, each on the list and the grid. */
    method PlaceBridges() returns (ghost listed: seq<Agent>, ghost placed: seq<Agent>)
      requires earth.Valid()
      modifies this, earth
      ensures earth.Valid() && earth.buffer == old(earth.buffer) && earth.status == old(earth.status)
      ensures simulationStep == old(simulationStep)
      ensures |listed| == 4 && Built(old(agents), old(earth.grid), listed, placed)
    {
      RosterFacts();
      ghost var ag0, g0 := agents, earth.grid;
      listed, placed := [], [];
      RosterGridNone(g0);
      var bridgeLocations := RosterLocs[..4];
      for i := 0 to 4
        invariant earth.Valid() && earth.buffer == old(earth.buffer) && earth.status == old(earth.status)
        invariant simulationStep == old(simulationStep)
        invariant |listed| == i && Built(ag0, g0, listed, placed)
      {
        var loc := bridgeLocations[i];
        var bridge := new Agent(BridgeKind, Some(loc), Some(InitialBridgeHealth));
        agents := agents + [bridge];
        PlaceOneCell(earth.grid, bridge, loc);
        earth.SetAgent(bridge, Some(loc));
        RosterGridStep(g0, placed, bridge);
        ghost var listed0, placed0 := listed, placed;
        listed, placed := listed + [bridge], placed + [bridge];
        forall j | 0 <= j < |listed|
          ensures IsRosterEntry(listed[j], j) && IsRosterEntry(placed[j], j) && (j < 4 <==> listed[j] == placed[j])
        {
          if j < i {
            assert listed[j] == listed0[j] && placed[j] == placed0[j];
          }
        }
      }
    }

    /**
     * One straight-line step of the roster: an agent of the given class
     * appended to the list and a second instance placed on the grid. The
     * ghost sequences record the roster so far.
     */
    method AddNext(kind: Kind, l: Loc, ghost ag0: seq<Agent>, ghost g0: Grid, ghost listed: seq<Agent>, ghost placed: seq<Agent>)
      returns (ghost listed': seq<Agent>, ghost placed': seq<Agent>)
      requires earth.Valid() && IsGrid(g0) && Built(ag0, g0, listed, placed) && 4 <= |listed| < 10
      requires kind == RosterKinds[|listed|] && l == RosterLocs[|listed|] && InBounds(l) && l.range == 0
      modifies this, earth
      ensures earth.Valid() && earth.buffer == old(earth.buffer) && earth.status == old(earth.status)
      ensures simulationStep == old(simulationStep)
      ensures |listed'| == |listed| + 1 && Built(ag0, g0, listed', placed')
    {
      var listedOne := new Agent(kind, Some(l), None);
      agents := agents + [listedOne];
      var placedOne := new Agent(kind, Some(l), None);
      PlaceOneCell(earth.grid, placedOne, l);
      earth.SetAgent(placedOne, Some(l));
      RosterGridStep(g0, placed, placedOne);
      listed', placed' := listed + [listedOne], placed + [placedOne];
      forall j | 0 <= j < |listed'|
        ensures IsRosterEntry(listed'[j], j) && IsRosterEntry(placed'[j], j) && (j < 4 <==> listed'[j] == placed'[j])
      {
        if j < |listed| {
          assert listed'[j] == listed[j] && placed'[j] == placed[j];
          assert old(IsRosterEntry(listed[j], j) && IsRosterEntry(placed[j], j));
        }
      }
    }

    // -------------------------------------------------------------------
    // __find_empty_locations
    // -------------------------------------------------------------------

    /** __find_empty_locations(r): the centre of the first all-empty window, scanning rows then columns. */
    method FindEmptyLocations(r: int) returns (l: Option<Loc>)
      requires earth.Valid()
      ensures l == FindEmpty(earth.grid, r)
    {
      var grid := earth.grid;
      ghost var first := FirstFreeWindow(grid, r, 0, 0);
      var n := |grid|;
      var y := 0;
      while y < n
        invariant 0 <= y <= n == W
        invariant first == FirstFreeWindow(grid, r, 0, y)
      {
        var hit := ScanRow(grid, y, r);
        if hit.Some? {
          l := Some(Loc((hit.value + r) % n, (y + r) % n, r));
          return;
        }
        y := y + 1;
      }
      l := None;
    }

    /** The x loop of __find_empty_locations for one row y: the first x whose window is free. */
    static method ScanRow(grid: Grid, y: int, r: int) returns (hit: Option<int>)
      requires IsGrid(grid) && 0 <= y < W
      ensures hit.Some? ==> 0 <= hit.value < W && FirstFreeWindow(grid, r, 0, y) == Some((hit.value, y))
      ensures hit.None? ==> FirstFreeWindow(grid, r, 0, y) == FirstFreeWindow(grid, r, 0, y + 1)
    {
      var n := |grid|;
      var x := 0;
      while x < n
        invariant 0 <= x <= n == W
        invariant x < W ==> FirstFreeWindow(grid, r, 0, y) == FirstFreeWindow(grid, r, x, y)
        invariant x == W ==> FirstFreeWindow(grid, r, 0, y) == FirstFreeWindow(grid, r, 0, y + 1)
      {
        var ok := WindowIsFree(grid, x, y, r);
        if ok {
          FirstFreeWindowHit(grid, r, x, y);
          return Some(x);
        }
        FirstFreeWindowMiss(grid, r, x, y);
        x := x + 1;
      }
      return None;
    }

    static lemma FirstFreeWindowHit(g: Grid, r: int, x: nat, y: nat)
      requires IsGrid(g) && x < W && y < W && WindowFree(g, x, y, r)
      ensures FirstFreeWindow(g, r, x, y) == Some((x, y))
    {
    }

    static lemma FirstFreeWindowMiss(g: Grid, r: int, x: nat, y: nat)
      requires IsGrid(g) && x < W && y < W && !WindowFree(g, x, y, r)
      ensures x + 1 < W ==> FirstFreeWindow(g, r, x, y) == FirstFreeWindow(g, r, x + 1, y)
      ensures x + 1 == W ==> FirstFreeWindow(g, r, x, y) == FirstFreeWindow(g, r, 0, y + 1)
    {
    }

    /** The two inner loops of __find_empty_locations, each left at the first occupied cell. */
    static method WindowIsFree(grid: Grid, x: int, y: int, r: int) returns (ok: bool)
      requires IsGrid(grid)
      ensures ok == WindowFree(grid, x, y, r)
    {
      var n := |grid|;
      var regionSize := 2 * r + 1;
      ok := true;
      var dy := 0;
      while dy < regionSize
        invariant ok && 0 <= dy
        invariant forall dy', dx' :: 0 <= dy' < dy && 0 <= dx' < regionSize ==> FreeAt(grid, x, y, dx', dy')
      {
        var dx := 0;
        while dx < regionSize
          invariant ok && 0 <= dx <= regionSize
          invariant forall dx' :: 0 <= dx' < dx ==> FreeAt(grid, x, y, dx', dy)
        {
          var ny := (y + dy) % n;
          var nx := (x + dx) % n;
          if grid[ny][nx] != null {
            assert !FreeAt(grid, x, y, dx, dy);
            ok := false;
            break;
          }
          dx := dx + 1;
        }
        if !ok {
          break;
        }
        dy := dy + 1;
      }
    }

    // -------------------------------------------------------------------
    // __update
    // -------------------------------------------------------------------

    /**
     * The episode reset in run: on a won or lost fight the grid is cleared,
     * the agent list emptied and the roster generated again; the episode
     * count advances and the episode's step count restarts at 0. Otherwise
     * nothing changes. Both counts are locals of run, so they are passed in
     * and returned; the simulation step counter is not touched.
     */
    method ResetIfOver(episode: int, step: int) returns (episode': int, step': int)
      requires earth.Valid()
      modifies this, earth
      ensures simulationStep == old(simulationStep)
      ensures old(earth.status) == Won || old(earth.status) == Lost ==>
        episode' == episode + 1 && step' == 0
        && earth.Valid() && earth.buffer == [] && earth.status == Running
        && Stocked(0, EmptyGrid()) && Populated(earth) && AgentsReady(agents)
      ensures old(earth.status) == Running ==>
        episode' == episode && step' == step && agents == old(agents) && unchanged(earth)
    {
      episode', step' := episode, step;
      if earth.GetStatus() == Won || earth.GetStatus() == Lost {
        earth.Clear();
        agents := [];
        GenerateInitialPopulation();
        RosterPopulates();
        episode' := episode + 1;
        step' := 0;
      }
    }

    /**
     * __update: every agent with a location picks an action, which is
     * registered; agents without one are skipped (None in `picked`). A pick
     * on an empty action list raises in the source; here the step stops
     * there with `crashed`, the step counter not advanced. `explore[i]` and
     * `picks[i]` stand for the i-th agent's random draws; `views[j]` is the
     * Earth as the j-th agent's turn found it.
     */
    method Update(explore: seq<Option<nat>>, picks: seq<nat>) returns (picked: seq<Option<Pick>>, crashed: bool, ghost views: seq<View>)
      requires earth.Valid() && Populated(earth) && AgentsReady(agents)
      requires |explore| == |agents| && |picks| == |agents|
      modifies this, earth, FranklinsOn(earth)
      ensures earth.Valid() && earth.grid == old(earth.grid) && Populated(earth)
      ensures agents == old(agents) && AgentsReady(agents) && earth.status == old(earth.status)
      ensures earth.buffer == old(earth.buffer) + Registered(picked)
      ensures !crashed ==> |picked| == |agents| && simulationStep == old(simulationStep) + 1
      ensures crashed ==> 0 < |picked| <= |agents| && picked[|picked| - 1] == Some(EmptyChoice)
                          && simulationStep == old(simulationStep)
      ensures forall j | 0 <= j < |picked| :: TurnOutcome(agents[j].kind, old(agents[j].location), picked[j])
      ensures forall j | 0 <= j < |picked| - 1 :: picked[j] != Some(EmptyChoice)
      ensures |views| == |picked| + 1 && views[0] == old(earth.View()) && views[|picked|] == earth.View()
      ensures var locs, hs, qs := old(Locations(agents)), old(Healths(agents)), old(Tables(agents));
        forall j | 0 <= j < |picked| ::
          TurnPicksOn(agents[j], locs[j], hs[j], qs[j], views[j], views[j + 1], explore[j], picks[j], picked[j])
      ensures forall a | a in old(earth.Occupants()) :: a.health == old(a.health) && a.q == old(a.q)
    {
      picked, crashed, views := PickAll(explore, picks);
      OutcomesEach(KindsOf(agents), old(Locations(agents)), picked);
      PicksAllEach(agents, old(Locations(agents)), old(Healths(agents)), old(Tables(agents)), explore, picks, picked, views);
      if !crashed {
        Advance();
      }
    }

    /** The end of __update when no pick raised: execute_actions, which does nothing, then the step counter. */
    method Advance()
      requires earth.Valid()
      modifies this
      ensures simulationStep == old(simulationStep) + 1 && agents == old(agents)
      ensures unchanged(earth) && earth.View() == old(earth.View())
    {
      earth.ExecuteActions();
      simulationStep := simulationStep + 1;
      ViewKept(earth);
    }

    /**
     * The loop of __update over the agent list: every agent with a location
     * picks an action, which is registered; agents without one are skipped
     * (None in `picked`). A pick on an empty action list raises in the
     * source; the loop stops there with `crashed`. `views[j]` is the Earth
     * as the j-th turn found it.
     */
    method PickAll(explore: seq<Option<nat>>, picks: seq<nat>)
      returns (picked: seq<Option<Pick>>, crashed: bool, ghost views: seq<View>)
      requires earth.Valid() && Populated(earth) && AgentsReady(agents)
      requires |explore| == |agents| && |picks| == |agents|
      modifies earth, FranklinsOn(earth)
      ensures earth.Valid() && earth.grid == old(earth.grid) && Populated(earth)
      ensures AgentsReady(agents) && earth.status == old(earth.status)
      ensures earth.buffer == old(earth.buffer) + Registered(picked)
      ensures !crashed ==> |picked| == |agents|
      ensures crashed ==> 0 < |picked| <= |agents| && picked[|picked| - 1] == Some(EmptyChoice)
      ensures Outcomes(KindsOf(agents), old(Locations(agents)), picked)
      ensures PicksAll(agents, old(Locations(agents)), old(Healths(agents)), old(Tables(agents)), explore, picks, picked, views)
      ensures views[0] == old(earth.View()) && views[|picked|] == earth.View()
      ensures forall a | a in old(earth.Occupants()) :: a.health == old(a.health) && a.q == old(a.q)
    {
      picked := [];
      crashed := false;
      ghost var locs, hs, qs := Locations(agents), Healths(agents), Tables(agents);
      ghost var kinds := KindsOf(agents);
      ghost var occupants := earth.Occupants();
      ghost var grid0, buffer0, status0 := earth.grid, earth.buffer, earth.status;
      ghost var view0 := earth.View();
      views := [view0];
      var i := 0;
      while i < |agents| && !crashed
        invariant 0 <= i <= |agents| && |picked| == i
        invariant earth.Valid() && Looping(grid0, status0, buffer0, kinds, locs, hs, qs, explore, picks, picked, views)
        invariant crashed <==> 0 < i && picked[i - 1] == Some(EmptyChoice)
        invariant views[0] == view0
        invariant forall a | a in occupants :: a.health == old(a.health) && a.q == old(a.q)
      {
        picked, views := PickNext(explore, picks, grid0, status0, buffer0, kinds, locs, hs, qs, picked, views);
        crashed := picked[i] == Some(EmptyChoice);
        i := i + 1;
      }
    }

    /**
     * What each pass of the loop of __update keeps: the grid, populated, the
     * status, every agent but a Franklin where it stood, and every agent's
     * health and Q-table.
     */
    ghost predicate Steady(grid0: Grid, status0: FightStatus, locs: seq<Option<Loc>>, hs: seq<real>, qs: seq<map<QKey, real>>)
      reads this, earth, earth.Occupants(), set a | a in agents
      requires earth.Valid()
    {
      earth.grid == grid0 && Populated(earth) && earth.status == status0 && AgentsReady(agents)
      && |locs| == |agents| && |hs| == |agents| && |qs| == |agents|
      && forall j | 0 <= j < |agents| ::
           (agents[j].kind != FranklinKind ==> agents[j].location == locs[j])
           && agents[j].health == hs[j] && agents[j].q == qs[j]
    }

    /**
     * Everything a pass of the loop of __update keeps: the Earth steady, the
     * buffer holding the picks so far, each the outcome of its agent's turn
     * and its pick on the views, the last of which is the Earth now.
     */
    ghost predicate Looping(grid0: Grid, status0: FightStatus, buffer0: seq<Action>, kinds: seq<Kind>,
                            locs: seq<Option<Loc>>, hs: seq<real>, qs: seq<map<QKey, real>>,
                            explore: seq<Option<nat>>, picks: seq<nat>, picked: seq<Option<Pick>>, views: seq<View>)
      reads this, earth, earth.Occupants(), set a | a in agents
      requires earth.Valid()
    {
      Steady(grid0, status0, locs, hs, qs)
      && earth.buffer == buffer0 + Registered(picked)
      && Outcomes(kinds, locs, picked)
      && PicksAll(agents, locs, hs, qs, explore, picks, picked, views)
      && views[|picked|] == earth.View()
    }

    /** One pass of the loop of PickAll: the next agent's turn, added to the picks and views so far. */
    method PickNext(explore: seq<Option<nat>>, picks: seq<nat>, ghost grid0: Grid, ghost status0: FightStatus,
                    ghost buffer0: seq<Action>, ghost kinds: seq<Kind>, ghost locs: seq<Option<Loc>>,
                    ghost hs: seq<real>, ghost qs: seq<map<QKey, real>>,
                    picked: seq<Option<Pick>>, ghost views: seq<View>)
      returns (picked': seq<Option<Pick>>, ghost views': seq<View>)
      requires |picked| < |agents| && kinds == KindsOf(agents)
      requires earth.Valid() && Looping(grid0, status0, buffer0, kinds, locs, hs, qs, explore, picks, picked, views)
      requires picked == [] || picked[|picked| - 1] != Some(EmptyChoice)
      modifies earth, FranklinsOn(earth)
      ensures earth.Valid() && Looping(grid0, status0, buffer0, kinds, locs, hs, qs, explore, picks, picked', views')
      ensures |picked'| == |picked| + 1 && picked'[..|picked|] == picked
      ensures views'[..|views|] == views
      ensures forall a | a in old(earth.Occupants()) :: a.health == old(a.health) && a.q == old(a.q)
    {
      var i := |picked|;
      assert forall j | 0 <= j < |agents| && agents[j].kind != FranklinKind :: agents[j] !in FranklinsOn(earth);
      var p := Turn(agents[i], explore[i], picks[i], locs[i]);
      PickedSnoc(kinds, locs, picked, p, buffer0);
      PicksAllSnoc(agents, locs, hs, qs, explore, picks, picked, views, p, earth.View());
      picked' := picked + [p];
      views' := views + [earth.View()];
    }

    /**
     * One pass of the loop in __update: the agent's pick, then
     * register_action unless it was skipped or the pick raised.
     */
    method Turn(agent: Agent, explore: Option<nat>, pick: nat, ghost l0: Option<Loc>)
      returns (p: Option<Pick>)
      requires earth.Valid() && Populated(earth)
      requires Acting(agent.kind) && agent.location.Some? ==> InBounds(agent.location.value)
      requires agent.kind != FranklinKind ==> agent.location == l0
      modifies earth, FranklinsOn(earth)
      ensures earth.Valid() && earth.grid == old(earth.grid) && Populated(earth) && earth.status == old(earth.status)
      ensures agent.location == old(agent.location)
      ensures TurnOutcome(agent.kind, l0, p)
      ensures earth.buffer == old(earth.buffer) + (if p.Some? && p.value.Picked? then [p.value.action] else [])
      ensures agent.location.Some? ==>
        p.Some? && PicksOn(agent, agent.location, old(agent.health), agent.q, old(earth.View()), earth.View(), explore, pick, p.value)
      ensures agent.location.Some? && agent.kind == SueStormKind ==> CarriedAlong(agent, agent.location.value, old(earth.View()))
      ensures agent.location.Some? && agent.kind == SueStormKind ==> earth.View() == SueAfter(agent, agent.location.value, old(earth.View()))
      ensures agent.kind != SueStormKind ==> earth.View() == old(earth.View())
      ensures forall a | a in old(earth.Occupants()) :: a.health == old(a.health) && a.q == old(a.q)
    {
      if agent.location.Some? {
        FranklinNearFacts(agent, earth);
      }
      label Before:
      p := TakeTurn(agent, explore, pick);
      if p.Some? && p != Some(EmptyChoice) {
        ghost var g := earth.grid;
        assert PopulatedGrid(g);
        Register(if p.value.Picked? then Some(p.value.action) else None);
        assert PopulatedGrid(g);
      }
    }

    /** register_action within a turn: the buffer grows, and the view stays as it was. */
    method Register(a: Option<Action>)
      requires earth.Valid()
      modifies earth
      ensures earth.Valid() && earth.grid == old(earth.grid) && earth.status == old(earth.status)
      ensures earth.buffer == old(earth.buffer) + (if a.Some? then [a.value] else [])
      ensures earth.View() == old(earth.View())
    {
      earth.RegisterAction(a);
      ViewKept(earth);
    }

    /**
     * One agent's pick in the loop of __update: skipped (None) without a
     * location, otherwise pick_action, which for SueStorm may move a Franklin
     * beside her.
     */
    method TakeTurn(agent: Agent, explore: Option<nat>, pick: nat) returns (p: Option<Pick>)
      requires earth.Valid() && Populated(earth)
      requires Acting(agent.kind) && agent.location.Some? ==> InBounds(agent.location.value)
      modifies if agent.location.Some? && agent.kind == SueStormKind then FranklinNear(agent, earth) else {}
      ensures Populated(earth)
      ensures agent.location == old(agent.location)
      ensures p.None? <==> agent.location.None?
      ensures !Acting(agent.kind) ==> p == None || p == Some(NoAction)
      ensures agent.location.Some? && agent.kind in {SueStormKind, GalactusKind} ==> p.Some? && p.value.Picked?
      ensures agent.location.Some? && agent.kind in {TheThingKind, SilverSurferKind} ==> p == Some(EmptyChoice)
      ensures agent.location.Some? ==>
        p.Some? && PicksOn(agent, agent.location, old(agent.health), agent.q, old(earth.View()), earth.View(), explore, pick, p.value)
      ensures agent.location.Some? && agent.kind == SueStormKind ==> CarriedAlong(agent, agent.location.value, old(earth.View()))
      ensures agent.location.Some? && agent.kind == SueStormKind ==> earth.View() == SueAfter(agent, agent.location.value, old(earth.View()))
      ensures agent.kind != SueStormKind ==> earth.View() == old(earth.View())
      ensures forall a | a in old(earth.Occupants()) :: a.health == old(a.health) && a.q == old(a.q)
      ensures forall a | a in old(earth.Occupants()) && a.kind != FranklinKind :: a.location == old(a.location)
    {
      if agent.location.None? {
        return None;
      }
      FranklinNearFacts(agent, earth);
      var picked := PickAction(agent, earth, explore, pick);
      p := Some(picked);
    }
  }
}
