/**
 * SueStorm (model/agents/sue_storm.py): a hero that moves, repairs, raises a
 * barrier and can carry Franklin along; the one hero with a state key.
 */
module SueStorm {
  import opened Wrappers
  import opened Geometry
  import opened Entities
  import opened World
  import opened Scan
  import opened Effects

  /** SueStorm.__init__: a hero with full health and Sue's class attributes. */
  method NewSueStorm(l: Loc) returns (a: Agent)
    ensures fresh(a) && a.kind == SueStormKind && a.location == Some(l)
    ensures a.health == 1.0 && a.q == map[] && a.Role() == Hero
    ensures RepairRate(a.kind) == Some(0.2) && ScanRange(a.kind) == Some(1)
    ensures DamageRate(a.kind) == Some(1.0)
  {
    a := new Agent(SueStormKind, Some(l), None);
  }

  // ---------------------------------------------------------------------
  // get_state
  // ---------------------------------------------------------------------

  /** The 5 x 5 region a cell lies in, numbered row by row (W div 5 regions per row). */
  function Region(here: Loc): int
  {
    (here.y / 5) * (W / 5) + here.x / 5
  }

  lemma RegionBounds(here: Loc)
    requires InBounds(here)
    ensures 0 <= Region(here) < (W / 5) * (W / 5)
  {
    assert 0 <= here.y / 5 <= 5 && 0 <= here.x / 5 <= 5;
  }

  function DistanceBin(d: int): (b: int)
    ensures 0 <= b <= 2
    ensures b == 0 <==> d <= 2
    ensures b == 1 <==> 2 < d <= 6
  {
    if d <= 2 then 0 else if d <= 6 then 1 else 2
  }

  function HealthBin(h: real): (b: int)
    ensures 0 <= b <= 2
    ensures b == 0 <==> h <= 0.2
    ensures b == 1 <==> 0.2 < h <= 0.6
  {
    if h <= 0.2 then 0 else if h <= 0.6 then 1 else 2
  }

  /**
   * The first of `s` at the least distance from `here`: min over the
   * dist_from_bridge dict keeps the first key in insertion order, which is
   * row-major order on the grid.
   */
  function NearestIndex(here: Loc, s: seq<Seen>): (i: nat)
    requires s != [] && Located(s)
    ensures i < |s|
    ensures forall j :: 0 <= j < |s| ==> Dist(here, s[i].location.value) <= Dist(here, s[j].location.value)
    ensures forall j :: 0 <= j < i ==> Dist(here, s[i].location.value) < Dist(here, s[j].location.value)
  {
    var ls := LocsOf(s);
    FirstNearest(here, ls)
  }

  /** min over the distances to `s`, or 0 for an empty list. */
  function MinDist(here: Loc, s: seq<Seen>): (d: int)
    requires Located(s)
    ensures s == [] ==> d == 0
    ensures s != [] ==> exists o :: o in s && d == Dist(here, o.location.value)
    ensures forall o :: o in s ==> d <= Dist(here, o.location.value)
  {
    if s == [] then 0
    else
      var i := NearestIndex(here, s);
      assert s[i] in s;
      forall o | o in s
        ensures Dist(here, s[i].location.value) <= Dist(here, o.location.value)
      {
        var j :| 0 <= j < |s| && s[j] == o;
      }
      Dist(here, s[i].location.value)
  }

  /** The occupants of HERO role a view shows, in row-major order: Sue's enemy list (bridges are listed by Bridges). */
  function Heroes(v: View): seq<Seen>
  {
    OfRole(Flatten(v), Hero)
  }

  /** What get_state needs: a bridge on the grid, and every bridge and hero located. */
  predicate StateDefined(v: View)
  {
    Bridges(v) != [] && Located(Bridges(v)) && Located(Heroes(v))
  }

  /** SueStorm.get_state: (region, bridge-distance bin, nearest-bridge health bin, enemy-distance bin). */
  function SueGetState(here: Loc, v: View): StateKey
    requires StateDefined(v)
  {
    var bridges := Bridges(v);
    var near := bridges[NearestIndex(here, bridges)];
    SueState(Region(here), DistanceBin(Dist(here, near.location.value)), HealthBin(near.health),
             DistanceBin(MinDist(here, Heroes(v))))
  }

  /** The key's parts are in range for an in-bounds Sue: region in [0, 36), each bin in {0, 1, 2}. */
  lemma SueStateRanges(here: Loc, v: View)
    requires StateDefined(v) && InBounds(here)
    ensures var st := SueGetState(here, v);
      st.SueState? && 0 <= st.region < 36
      && 0 <= st.bridgeDist <= 2 && 0 <= st.bridgeHealth <= 2 && 0 <= st.enemyDist <= 2
  {
    RegionBounds(here);
    assert (W / 5) * (W / 5) == 36;
    var bridges := Bridges(v);
    var near := bridges[NearestIndex(here, bridges)];
    assert SueGetState(here, v)
      == SueState(Region(here), DistanceBin(Dist(here, near.location.value)), HealthBin(near.health),
                  DistanceBin(MinDist(here, Heroes(v))));
  }

  /**
   * The enemy list holds the HERO role, so whoever stands on Sue's cell
   * counts: whenever the grid shows a HERO-role occupant located at `here`
   * (the Sue object on the grid, which need not be the one asking) the
   * enemy bin is 0.
   */
  lemma SueIsHerOwnNearestEnemy(here: Loc, v: View)
    requires StateDefined(v) && IsView(v) && InBounds(here)
    requires SeenAt(v, here).Some? && RoleOf(SeenAt(v, here).value.kind) == Hero
    requires SeenAt(v, here).value.location == Some(here)
    ensures SueGetState(here, v).enemyDist == 0
  {
    var o := SeenAt(v, here).value;
    assert v[here.y % W][here.x % W] == Some(o);
    assert o in Heroes(v);
    DistSelf(here);
  }

  /** With no hero on the grid the enemy distance is taken as 0, bin 0. */
  lemma NoEnemyMeansBinZero(here: Loc, v: View)
    requires StateDefined(v) && Heroes(v) == []
    ensures SueGetState(here, v).enemyDist == 0
  {
  }

  // ---------------------------------------------------------------------
  // actions
  // ---------------------------------------------------------------------

  /** The Franklin-class occupant seen last among `locs`, if any. */
  function LastFranklin(locs: seq<Loc>, v: View): (f: Option<Seen>)
    requires IsView(v)
    ensures f.Some? ==> f.value.kind == FranklinKind && exists l :: l in locs && SeenAt(v, l) == f
    ensures f.None? ==> forall l :: l in locs ==> SeenAt(v, l).None? || SeenAt(v, l).value.kind != FranklinKind
  {
    if locs == [] then None
    else
      var l := locs[|locs| - 1];
      var s := SeenAt(v, l);
      if s.Some? && s.value.kind == FranklinKind then s
      else
        assert locs == locs[..|locs| - 1] + [l];
        LastFranklin(locs[..|locs| - 1], v)
  }

  /** The barrier: a Protect centred on Sue's own cell with range barrier_range. */
  function Barrier(me: Agent, here: Loc): Action
  {
    Protect(Loc(here.x, here.y, SueBarrierRange), me)
  }

  /** Franklin's location after the shift by Sue's offset to `l`; x and y are not reduced mod W. */
  function Drifted(f: Loc, here: Loc, l: Loc): Loc
  {
    var d := MoveDir(here, l);
    f.(x := f.x + d.0, y := f.y + d.1)
  }

  /**
   * The co-move loop: for each empty cell Franklin's location is shifted by
   * Sue's offset to that cell (cumulatively), and a flagged Move is offered
   * when the shifted cell is empty. Returns the Moves and Franklin's final
   * location.
   */
  function CoMoves(me: Agent, here: Loc, locs: seq<Loc>, v: View, f: Loc): (seq<Action>, Loc)
    requires IsView(v)
  {
    if locs == [] then ([], f)
    else
      var l := locs[|locs| - 1];
      var (prev, f') := CoMoves(me, here, locs[..|locs| - 1], v, f);
      if Vacant(v, l) then
        var f'' := Drifted(f', here, l);
        (prev + (if Vacant(v, f'') then [Move(l, me, true)] else []), f'')
      else (prev, f')
  }

  /** The list SueStorm.actions returns, and Franklin's location afterwards when it was seen. */
  function SueRules(me: Agent, here: Loc, locs: seq<Loc>, v: View): (seq<Action>, Option<Loc>)
    requires IsView(v)
  {
    var first := ScanRules(me, locs, v) + [Barrier(me, here)];
    match LastFranklin(locs, v)
    case None => (first, None)
    case Some(f) =>
      var fl := if f.location.Some? then f.location.value else Cell(0, 0);
      var (moves, fl') := CoMoves(me, here, locs, v, fl);
      (first + moves, Some(fl'))
  }

  /**
   * Where the Franklin seen last among `locs` stands after SueStorm.actions:
   * its final drifted location when some neighbour was empty, the location
   * it had otherwise; None when no Franklin was seen.
   */
  function CarriedTo(me: Agent, here: Loc, locs: seq<Loc>, v: View): Option<Loc>
    requires IsView(v)
  {
    match LastFranklin(locs, v)
    case None => None
    case Some(f) => if VacantCount(locs, v) > 0 then SueRules(me, here, locs, v).1 else f.location
  }

  /** The Franklin a view shows last among `locs`, as a frame. */
  function FranklinSeen(locs: seq<Loc>, v: View): set<Agent>
    requires IsView(v)
  {
    var f := LastFranklin(locs, v);
    if f.Some? then {f.value.who} else {}
  }

  /** The Franklin that `v` showed beside `here` now stands where Sue's actions() carried it. */
  ghost predicate CarriedAlong(me: Agent, here: Loc, v: View)
    requires IsView(v)
    reads FranklinSeen(Adjacent(here, 1), v)
  {
    var locs := Adjacent(here, 1);
    var f := LastFranklin(locs, v);
    f.Some? ==> f.value.who.location == CarriedTo(me, here, locs, v)
  }

  /**
   * The view after Sue's actions(): the Franklin seen beside her, when it
   * has a location, is shown where her list of rules leaves it, and every
   * other cell is as it was.
   */
  function SueAfter(me: Agent, here: Loc, v: View): (r: View)
    requires IsView(v)
    ensures IsView(r)
  {
    var locs := Adjacent(here, 1);
    var f := LastFranklin(locs, v);
    if f.Some? then Moved(v, f.value.who, if f.value.location.Some? then SueRules(me, here, locs, v).1 else None)
    else v
  }

  /**
   * A Franklin seen with a location is carried where SueRules says: with no
   * empty neighbour its drift is nil, so keeping its location is the same.
   */
  lemma CarriedToRules(me: Agent, here: Loc, locs: seq<Loc>, v: View)
    requires IsView(v) && LastFranklin(locs, v).Some? && LastFranklin(locs, v).value.location.Some?
    ensures CarriedTo(me, here, locs, v) == SueRules(me, here, locs, v).1
  {
    CoMovesDrift(me, here, locs, v, LastFranklin(locs, v).value.location.value);
  }

  /** The Franklin agent Sue would carry along, as a frame. */
  function FranklinNear(me: Agent, env: Earth): set<Agent>
    reads me, env, env.Occupants()
    requires env.Valid() && me.location.Some?
  {
    FranklinSeen(Adjacent(me.location.value, 1), env.View())
  }

  /** The source reads Franklin's location only when some neighbour is empty. */
  predicate FranklinReady(locs: seq<Loc>, v: View)
    requires IsView(v)
  {
    LastFranklin(locs, v).Some? && VacantCount(locs, v) > 0 ==> LastFranklin(locs, v).value.location.Some?
  }

  /**
   * SueStorm.actions. The second loop moves Franklin's stored location in
   * place, so Franklin's new location is part of what it does.
   */
  method SueActions(me: Agent, env: Earth) returns (acts: seq<Action>)
    requires env.Valid() && me.kind == SueStormKind
    requires me.location.Some? && InBounds(me.location.value)
    requires FranklinReady(Adjacent(me.location.value, 1), env.View())
    modifies FranklinNear(me, env)
    ensures var r := SueRules(me, old(me.location.value), Adjacent(old(me.location.value), 1), old(env.View()));
      acts == r.0
      && (r.1.Some? && VacantCount(Adjacent(old(me.location.value), 1), old(env.View())) > 0 ==>
            LastFranklin(Adjacent(old(me.location.value), 1), old(env.View())).value.who.location == r.1)
    ensures var f := LastFranklin(Adjacent(old(me.location.value), 1), old(env.View()));
      f.Some? && VacantCount(Adjacent(old(me.location.value), 1), old(env.View())) == 0 ==>
        f.value.who.location == old(f.value.who.location)
    ensures CarriedAlong(me, old(me.location.value), old(env.View()))
    ensures forall f | f in old(FranklinNear(me, env)) :: f.health == old(f.health) && f.q == old(f.q)
    ensures env.grid == old(env.grid)
    ensures env.View() == SueAfter(me, old(me.location.value), old(env.View()))
  {
    ghost var v := env.View();
    ghost var frame := FranklinNear(me, env);
    label L:
    var here := me.location.value;
    var locs := env.GetAdjacentLocations(here, ScanRange(me.kind).value);
    assert unchanged@L(env) && unchanged@L(me);
    ViewKept@L(env);
    var franklin;
    acts, franklin := ScanNeighbours(me, env, locs, v);
    acts := acts + [Protect(Loc(here.x, here.y, SueBarrierRange), me)];
    if franklin != null {
      assert franklin in frame;
      FranklinSeenAsIs(env, locs, v);
      var moves := CoMoveScan(me, env, here, locs, franklin, v);
      acts := acts + moves;
      if LastFranklin(locs, v).value.location.Some? {
        CarriedToRules(me, here, locs, v);
      }
      ViewMoved(env, franklin);
    } else {
      ViewKept(env);
    }
  }

  /** The Franklin found in the view carries the location Franklin has. */
  lemma FranklinSeenAsIs(env: Earth, locs: seq<Loc>, v: View)
    requires env.Valid() && v == env.View() && LastFranklin(locs, v).Some?
    ensures LastFranklin(locs, v).value.location == LastFranklin(locs, v).value.who.location
  {
    var f := LastFranklin(locs, v).value;
    var l :| l in locs && SeenAt(v, l) == Some(f);
    env.ViewAt(l);
  }

  /** The first loop: the shared per-cell rule, noting the last Franklin seen. */
  method ScanNeighbours(me: Agent, env: Earth, locs: seq<Loc>, ghost v: View) returns (acts: seq<Action>, franklin: Agent?)
    requires env.Valid() && v == env.View()
    ensures acts == ScanRules(me, locs, v)
    ensures var f := LastFranklin(locs, v);
      (f.None? ==> franklin == null) && (f.Some? ==> franklin == f.value.who)
  {
    acts := [];
    franklin := null;
    for i := 0 to |locs|
      invariant acts == ScanRules(me, locs[..i], v)
      invariant var f := LastFranklin(locs[..i], v);
        (f.None? ==> franklin == null) && (f.Some? ==> franklin == f.value.who)
      invariant v == env.View()
    {
      var loc := locs[i];
      var scanned := env.GetAgent(Some(loc));
      env.ViewAt(loc);
      assert locs[..i + 1][..i] == locs[..i];
      if scanned != null && scanned.kind == FranklinKind {
        franklin := scanned;
      }
      var cell: seq<Action> := [];
      if scanned == null {
        cell := [Move(loc, me, false)];
      } else if scanned.Role() == Bridge {
        if scanned.health < 1.0 {
          cell := [Repair(loc, me)];
        }
        cell := cell + [Protect(loc, me)];
      }
      assert cell == CellActions(me, loc, SeenAt(v, loc));
      ScanStep(me, locs, i, v);
      acts := acts + cell;
    }
    assert locs[..|locs|] == locs;
  }

  /** The second loop, run only when Franklin was seen. */
  method CoMoveScan(me: Agent, env: Earth, here: Loc, locs: seq<Loc>, franklin: Agent, ghost v: View)
      returns (acts: seq<Action>)
    requires env.Valid() && IsView(v)
    requires forall y, x :: 0 <= y < W && 0 <= x < W ==> (v[y][x].None? <==> env.grid[y][x] == null)
    requires franklin.location.Some? || VacantCount(locs, v) == 0
    modifies franklin
    ensures var fl := if old(franklin.location).Some? then old(franklin.location.value) else Cell(0, 0);
      acts == CoMoves(me, here, locs, v, fl).0
      && franklin.location == (if VacantCount(locs, v) > 0 then Some(CoMoves(me, here, locs, v, fl).1)
                               else old(franklin.location))
    ensures franklin.health == old(franklin.health) && franklin.q == old(franklin.q)
  {
    ghost var fl := if franklin.location.Some? then franklin.location.value else Cell(0, 0);
    acts := [];
    for i := 0 to |locs|
      invariant env.grid == old(env.grid)
      invariant acts == CoMoves(me, here, locs[..i], v, fl).0
      invariant franklin.location == (if VacantCount(locs[..i], v) > 0 then Some(CoMoves(me, here, locs[..i], v, fl).1)
                                      else old(franklin.location))
      invariant VacantCount(locs[..i], v) <= VacantCount(locs, v)
      invariant VacantCount(locs[..i], v) == 0 ==> CoMoves(me, here, locs[..i], v, fl).1 == fl
      invariant franklin.health == old(franklin.health) && franklin.q == old(franklin.q)
    {
      var loc := locs[i];
      var scanned := env.GetAgent(Some(loc));
      assert locs[..i + 1][..i] == locs[..i];
      VacantCountPrefix(locs, i + 1, v);
      if scanned == null {
        var m := W;
        var moveX := (m + loc.x - here.x) % m;
        var moveY := (m + loc.y - here.y) % m;
        var franklinLoc := franklin.location.value;
        franklinLoc := franklinLoc.(x := franklinLoc.x + moveX);
        franklinLoc := franklinLoc.(y := franklinLoc.y + moveY);
        franklin.SetLocation(Some(franklinLoc));
        assert franklinLoc == Drifted(CoMoves(me, here, locs[..i], v, fl).1, here, loc);
        if env.GetAgent(Some(franklinLoc)) == null {
          acts := acts + [Move(loc, me, true)];
        }
      }
    }
    assert locs[..|locs|] == locs;
  }


  /** The summed offsets to the empty cells of `locs`, each in [0, W) per axis. */
  function DriftSum(here: Loc, locs: seq<Loc>, v: View): (int, int)
    requires IsView(v)
  {
    if locs == [] then (0, 0)
    else
      var l := locs[|locs| - 1];
      var prev := DriftSum(here, locs[..|locs| - 1], v);
      if Vacant(v, l) then (prev.0 + MoveDir(here, l).0, prev.1 + MoveDir(here, l).1) else prev
  }

  /**
   * The shift is cumulative: after the loop Franklin's stored location is
   * its old one plus the offsets to every empty neighbour, between 0 and
   * (W - 1) times their number per axis, and its range is kept.
   */
  lemma {:induction false} CoMovesDrift(me: Agent, here: Loc, locs: seq<Loc>, v: View, f: Loc)
    requires IsView(v)
    ensures var d := DriftSum(here, locs, v);
      CoMoves(me, here, locs, v, f).1 == f.(x := f.x + d.0, y := f.y + d.1)
      && 0 <= d.0 <= (W - 1) * VacantCount(locs, v) && 0 <= d.1 <= (W - 1) * VacantCount(locs, v)
  {
    if locs != [] {
      CoMovesDrift(me, here, locs[..|locs| - 1], v, f);
    }
  }

  /**
   * The co-move list holds only Moves by Sue with the Franklin flag, each on
   * an empty cell of `locs`, at most one per empty cell.
   */
  lemma {:induction false} CoMovesShape(me: Agent, here: Loc, locs: seq<Loc>, v: View, f: Loc)
    requires IsView(v)
    ensures var ms := CoMoves(me, here, locs, v, f).0;
      |ms| <= VacantCount(locs, v)
      && forall a :: a in ms ==> a.Move? && a.moveFranklin && a.actor == me && a.target in locs && Vacant(v, a.target)
  {
    if locs != [] {
      CoMovesShape(me, here, locs[..|locs| - 1], v, f);
    }
  }

  /**
   * Sue's list starts with the entries of the shared scan rule (Reed
   * Richards' list), then the barrier on her own cell with range 3; with no
   * Franklin among the scanned cells the barrier is last and Franklin is
   * not moved.
   */
  lemma SueBarrierFacts(me: Agent, here: Loc, locs: seq<Loc>, v: View)
    requires IsView(v)
    ensures var acts := SueRules(me, here, locs, v).0;
      var n := |ScanRules(me, locs, v)|;
      n < |acts| && acts[..n] == ScanRules(me, locs, v)
      && acts[n] == Protect(Loc(here.x, here.y, 3), me)
      && (LastFranklin(locs, v).None? ==> |acts| == n + 1 && SueRules(me, here, locs, v).1.None?)
  {
    var first := ScanRules(me, locs, v) + [Barrier(me, here)];
    assert first[..|ScanRules(me, locs, v)|] == ScanRules(me, locs, v);
    var f := LastFranklin(locs, v);
    if f.Some? {
      var fl := if f.value.location.Some? then f.value.location.value else Cell(0, 0);
      var ms := CoMoves(me, here, locs, v, fl).0;
      assert (first + ms)[..|ScanRules(me, locs, v)|] == ScanRules(me, locs, v);
      assert (first + ms)[|ScanRules(me, locs, v)|] == Barrier(me, here);
    }
  }

  /**
   * Over Sue's eight neighbours every entry is hers; flagged Moves appear
   * only when a Franklin is next to her, each onto an empty neighbour, at
   * most one per empty neighbour.
   */
  lemma SueCoMoveFacts(me: Agent, here: Loc, v: View)
    requires IsView(v) && InBounds(here)
    ensures var locs := Adjacent(here, 1);
      var acts := SueRules(me, here, locs, v).0;
      |acts| <= |ScanRules(me, locs, v)| + 1 + VacantCount(locs, v)
      && (forall a :: a in acts ==> a.actor == me)
      && (forall a :: a in acts && a.Move? && a.moveFranklin ==>
            LastFranklin(locs, v).Some? && Vacant(v, a.target) && Dist(a.target, here) == 1)
  {
    var locs := Adjacent(here, 1);
    AdjacentFacts(here, 1);
    ScanRulesShape(me, locs, v);
    var first := ScanRules(me, locs, v) + [Barrier(me, here)];
    var f := LastFranklin(locs, v);
    if f.Some? {
      var fl := if f.value.location.Some? then f.value.location.value else Cell(0, 0);
      CoMovesShape(me, here, locs, v, fl);
      var ms := CoMoves(me, here, locs, v, fl).0;
      assert forall a :: a in first + ms ==> a in first || a in ms;
    }
  }

  lemma {:induction false} VacantCountPrefix(locs: seq<Loc>, n: int, v: View)
    requires IsView(v) && 0 <= n <= |locs|
    ensures VacantCount(locs[..n], v) <= VacantCount(locs, v)
  {
    if n < |locs| {
      assert locs[..|locs| - 1][..n] == locs[..n];
      VacantCountPrefix(locs[..|locs| - 1], n, v);
    } else {
      assert locs[..n] == locs;
    }
  }
}
