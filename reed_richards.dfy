/** ReedRichards (model/agents/reed_richards.py): a hero that moves, repairs and protects. */
module ReedRichards {
  import opened Wrappers
  import opened Geometry
  import opened Entities
  import opened World
  import opened Scan

  /** ReedRichards.__init__: a hero with full health and Reed's class attributes. */
  method NewReedRichards(l: Loc) returns (a: Agent)
    ensures fresh(a) && a.kind == ReedRichardsKind && a.location == Some(l)
    ensures a.health == 1.0 && a.q == map[] && a.Role() == Hero
    ensures RepairRate(a.kind) == Some(0.2) && ScanRange(a.kind) == Some(3)
    ensures DamageRate(a.kind) == Some(1.0)
  {
    a := new Agent(ReedRichardsKind, Some(l), None);
  }

  /** The list ReedRichards.actions returns, given the cells it scans. */
  function ReedRules(me: Agent, locs: seq<Loc>, v: View): seq<Action>
    requires IsView(v)
  {
    ScanRules(me, locs, v)
  }

  /**
   * ReedRichards.actions: scans only the eight cells at distance 1 (the
   * default radius of get_adjacent_locations; scan_range is not used).
   */
  method ReedActions(me: Agent, env: Earth) returns (acts: seq<Action>)
    requires env.Valid() && me.location.Some? && InBounds(me.location.value)
    ensures acts == ReedRules(me, Adjacent(me.location.value, 1), env.View())
  {
    ghost var v := env.View();
    label L:
    var locs := env.GetAdjacentLocations(me.location.value, 1);
    assert unchanged@L(env) && unchanged@L(me);
    ViewKept@L(env);
    acts := ScanCells(me, env, locs, v);
  }

  /** The loop of ReedRichards.actions over the scanned cells. */
  method ScanCells(me: Agent, env: Earth, locs: seq<Loc>, ghost v: View) returns (acts: seq<Action>)
    requires env.Valid() && v == env.View()
    ensures acts == ScanRules(me, locs, v)
  {
    acts := [];
    for i := 0 to |locs|
      invariant acts == ScanRules(me, locs[..i], v)
      invariant v == env.View()
    {
      var loc := locs[i];
      var scanned := env.GetAgent(Some(loc));
      env.ViewAt(loc);
      var cell: seq<Action> := [];
      if scanned == null {
        cell := [Move(loc, me, false)];
      } else if scanned.Role() == Bridge {
        if scanned.health < 1.0 {
          cell := [Repair(loc, me)];
        }
        cell := cell + [Protect(loc, me)];
      }
      assert cell == CellActions(me, loc, SeenAt(v, loc));
      ScanStep(me, locs, i, v);
      acts := acts + cell;
    }
    assert locs[..|locs|] == locs;
  }

  /**
   * Over the eight neighbours of an in-bounds cell: a Move for exactly the
   * empty ones, a Repair for exactly the bridges below full health, a
   * Protect for every bridge, nothing else, at most 16 entries, one Move per
   * empty neighbour, and each Repair directly before its cell's Protect.
   */
  lemma ReedActionFacts(me: Agent, here: Loc, v: View)
    requires IsView(v) && InBounds(here)
    ensures var acts := ReedRules(me, Adjacent(here, 1), v);
      |acts| <= 16
      && MoveCount(acts) == VacantCount(Adjacent(here, 1), v)
      && RepairsFollowed(acts, me)
      && (forall a :: a in acts ==>
            a.actor == me && Dist(a.target, here) == 1 && InBounds(a.target)
            && ((a.Move? && !a.moveFranklin) || a.Repair? || a.Protect?))
      && (forall l :: l in Adjacent(here, 1) ==>
            (Move(l, me, false) in acts <==> Vacant(v, l))
            && (Repair(l, me) in acts <==> NeedsRepairAt(v, l))
            && (Protect(l, me) in acts <==> IsBridgeAt(v, l)))
  {
    var locs := Adjacent(here, 1);
    AdjacentFacts(here, 1);
    ScanRulesLength(me, locs, v);
    ScanRulesShape(me, locs, v);
    ScanMovesPerVacantCell(me, locs, v);
    RepairThenProtect(me, locs, v);
    forall l | l in locs
      ensures (Move(l, me, false) in ScanRules(me, locs, v) <==> Vacant(v, l))
        && (Repair(l, me) in ScanRules(me, locs, v) <==> NeedsRepairAt(v, l))
        && (Protect(l, me) in ScanRules(me, locs, v) <==> IsBridgeAt(v, l))
    {
      ScanRulesMembers(me, locs, v, l);
    }
  }

  /** A cell outside the neighbourhood never appears as a target. */
  lemma ReedIgnoresFartherCells(me: Agent, here: Loc, v: View, l: Loc)
    requires IsView(v) && InBounds(here) && InBounds(l) && Dist(l, here) != 1
    ensures Move(l, me, false) !in ReedRules(me, Adjacent(here, 1), v)
    ensures Repair(l, me) !in ReedRules(me, Adjacent(here, 1), v)
    ensures Protect(l, me) !in ReedRules(me, Adjacent(here, 1), v)
  {
    AdjacentFacts(here, 1);
    ScanRulesMembers(me, Adjacent(here, 1), v, l);
  }
}
