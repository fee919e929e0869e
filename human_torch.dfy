/** HumanTorch (model/agents/human_torch.py): a hero that moves, heals, repairs, protects and attacks. */
module HumanTorch {
  import opened Wrappers
  import opened Geometry
  import opened Entities
  import opened World
  import opened Scan

  /** HumanTorch.__init__: a hero with full health and the Torch's class attributes. */
  method NewHumanTorch(l: Loc) returns (a: Agent)
    ensures fresh(a) && a.kind == HumanTorchKind && a.location == Some(l)
    ensures a.health == 1.0 && a.q == map[] && a.Role() == Hero
    ensures RepairRate(a.kind) == Some(0.2) && ScanRange(a.kind) == Some(5)
    ensures AttackRate(a.kind) == Some(0.1) && CloseAttackRate(a.kind) == None
    ensures RangedAttackEffect(a.kind) == Some(0.001) && RangedAttackHealthReduce(a.kind) == Some(0.02)
    ensures DamageRate(a.kind) == Some(1.0)
  {
    a := new Agent(HumanTorchKind, Some(l), None);
  }

  /** The first loop: a Move into each empty cell among `locs`. */
  function TorchMoves(me: Agent, locs: seq<Loc>, v: View): seq<Action>
    requires IsView(v)
  {
    if locs == [] then []
    else
      var l := locs[|locs| - 1];
      TorchMoves(me, locs[..|locs| - 1], v) + (if Vacant(v, l) then [Move(l, me, false)] else [])
  }

  /** What one cell of the wide scan adds; `here` is the Torch's own location. */
  function TorchCell(me: Agent, here: Loc, l: Loc, s: Option<Seen>): seq<Action>
  {
    if s.None? then []
    else match RoleOf(s.value.kind)
      case Headquarters => [Heal(here, me)]
      case Bridge => (if s.value.health < 1.0 then [Repair(l, me)] else []) + [Protect(l, me)]
      case Villain => if s.value.health > 0.0 then [Attack(l, me)] else []
      case _ => []
  }

  /** The second loop over the cells within scan range. */
  function TorchScan(me: Agent, here: Loc, locs: seq<Loc>, v: View): seq<Action>
    requires IsView(v)
  {
    if locs == [] then []
    else
      var l := locs[|locs| - 1];
      TorchScan(me, here, locs[..|locs| - 1], v) + TorchCell(me, here, l, SeenAt(v, l))
  }

  /** The list HumanTorch.actions returns: the second loop runs only while health is positive. */
  function TorchRules(me: Agent, here: Loc, health: real, moveLocs: seq<Loc>, scanLocs: seq<Loc>, v: View): seq<Action>
    requires IsView(v)
  {
    TorchMoves(me, moveLocs, v) + (if health > 0.0 then TorchScan(me, here, scanLocs, v) else [])
  }

  lemma TorchMovesStep(me: Agent, locs: seq<Loc>, i: int, v: View)
    requires IsView(v) && 0 <= i < |locs|
    ensures TorchMoves(me, locs[..i + 1], v)
         == TorchMoves(me, locs[..i], v) + (if Vacant(v, locs[i]) then [Move(locs[i], me, false)] else [])
  {
    assert locs[..i + 1][..i] == locs[..i];
  }

  lemma TorchScanStep(me: Agent, here: Loc, locs: seq<Loc>, i: int, v: View)
    requires IsView(v) && 0 <= i < |locs|
    ensures TorchScan(me, here, locs[..i + 1], v)
         == TorchScan(me, here, locs[..i], v) + TorchCell(me, here, locs[i], SeenAt(v, locs[i]))
  {
    assert locs[..i + 1][..i] == locs[..i];
  }

  /** HumanTorch.actions. */
  method TorchActions(me: Agent, env: Earth) returns (acts: seq<Action>)
    requires env.Valid() && me.kind == HumanTorchKind
    requires me.location.Some? && InBounds(me.location.value)
    ensures acts == TorchRules(me, me.location.value, me.health,
                               Adjacent(me.location.value, 1), Adjacent(me.location.value, 5), env.View())
  {
    ghost var v := env.View();
    label L:
    var movementRange := env.GetAdjacentLocations(me.location.value, 1);
    var actionable := env.GetAdjacentLocations(me.location.value, ScanRange(me.kind).value);
    assert unchanged@L(env) && unchanged@L(me);
    ViewKept@L(env);
    acts := MovesIntoVacant(me, env, movementRange, v);
    if me.health > 0.0 {
      var more := ScanForTargets(me, env, me.location.value, actionable, v);
      acts := acts + more;
    }
  }

  /** The first loop of HumanTorch.actions: a Move into each empty cell. */
  method MovesIntoVacant(me: Agent, env: Earth, locs: seq<Loc>, ghost v: View) returns (acts: seq<Action>)
    requires env.Valid() && v == env.View()
    ensures acts == TorchMoves(me, locs, v)
  {
    acts := [];
    for i := 0 to |locs|
      invariant acts == TorchMoves(me, locs[..i], v)
      invariant v == env.View()
    {
      var loc := locs[i];
      var scanned := env.GetAgent(Some(loc));
      env.ViewAt(loc);
      TorchMovesStep(me, locs, i, v);
      if scanned == null {
        acts := acts + [Move(loc, me, false)];
      }
    }
    assert locs[..|locs|] == locs;
  }

  /** The second loop of HumanTorch.actions, over the cells within scan range. */
  method ScanForTargets(me: Agent, env: Earth, here: Loc, locs: seq<Loc>, ghost v: View) returns (acts: seq<Action>)
    requires env.Valid() && v == env.View()
    ensures acts == TorchScan(me, here, locs, v)
  {
    acts := [];
    for i := 0 to |locs|
      invariant acts == TorchScan(me, here, locs[..i], v)
      invariant v == env.View()
    {
      var loc := locs[i];
      var scanned := env.GetAgent(Some(loc));
      env.ViewAt(loc);
      TorchScanStep(me, here, locs, i, v);
      if scanned == null {
        continue;
      } else if scanned.Role() == Headquarters {
        acts := acts + [Heal(here, me)];
      } else if scanned.Role() == Bridge {
        if scanned.health < 1.0 {
          acts := acts + [Repair(loc, me)];
        }
        acts := acts + [Protect(loc, me)];
      } else if scanned.Role() == Villain {
        if scanned.health > 0.0 {
          acts := acts + [Attack(loc, me)];
        }
      }
    }
    assert locs[..|locs|] == locs;
  }

  lemma {:induction false} TorchMovesMembers(me: Agent, locs: seq<Loc>, v: View)
    requires IsView(v)
    ensures forall a :: a in TorchMoves(me, locs, v) ==>
      a.Move? && !a.moveFranklin && a.actor == me && a.target in locs && Vacant(v, a.target)
    ensures forall l :: l in locs && Vacant(v, l) ==> Move(l, me, false) in TorchMoves(me, locs, v)
  {
    if locs != [] {
      assert locs == locs[..|locs| - 1] + [locs[|locs| - 1]];
      TorchMovesMembers(me, locs[..|locs| - 1], v);
    }
  }

  /** The predicate a wide-scan entry satisfies for the cell it names. */
  predicate ScanEntry(a: Action, me: Agent, here: Loc, locs: seq<Loc>, v: View)
    requires IsView(v)
  {
    a.actor == me
    && match a
       case Heal(t, _) => t == here && exists l :: l in locs && RoleAt(v, l) == Some(Headquarters)
       case Repair(t, _) => t in locs && NeedsRepairAt(v, t)
       case Protect(t, _) => t in locs && IsBridgeAt(v, t)
       case Attack(t, _) => t in locs && RoleAt(v, t) == Some(Villain) && SeenAt(v, t).value.health > 0.0
       case _ => false
  }

  /** Every wide-scan entry is one that its cell calls for. */
  lemma {:induction false} TorchScanSound(me: Agent, here: Loc, locs: seq<Loc>, v: View)
    requires IsView(v)
    ensures forall a :: a in TorchScan(me, here, locs, v) ==> ScanEntry(a, me, here, locs, v)
  {
    if locs != [] {
      var init, last := locs[..|locs| - 1], locs[|locs| - 1];
      assert locs == init + [last];
      TorchScanSound(me, here, init, v);
      forall a | a in TorchScan(me, here, locs, v)
        ensures ScanEntry(a, me, here, locs, v)
      {
        if a in TorchScan(me, here, init, v) {
          assert ScanEntry(a, me, here, init, v);
          if a.Heal? {
            var l :| l in init && RoleAt(v, l) == Some(Headquarters);
            assert l in locs;
          }
        } else if a.Heal? {
          assert last in locs && RoleAt(v, last) == Some(Headquarters);
        }
      }
    }
  }

  /** Every cell in range that calls for an entry gets it. */
  lemma {:induction false} TorchScanComplete(me: Agent, here: Loc, locs: seq<Loc>, v: View)
    requires IsView(v)
    ensures forall l :: l in locs && RoleAt(v, l) == Some(Headquarters) ==> Heal(here, me) in TorchScan(me, here, locs, v)
    ensures forall l :: l in locs && NeedsRepairAt(v, l) ==> Repair(l, me) in TorchScan(me, here, locs, v)
    ensures forall l :: l in locs && IsBridgeAt(v, l) ==> Protect(l, me) in TorchScan(me, here, locs, v)
    ensures forall l :: l in locs && RoleAt(v, l) == Some(Villain) && SeenAt(v, l).value.health > 0.0 ==>
      Attack(l, me) in TorchScan(me, here, locs, v)
  {
    if locs != [] {
      var init, last := locs[..|locs| - 1], locs[|locs| - 1];
      assert locs == init + [last];
      TorchScanComplete(me, here, init, v);
    }
  }

  lemma TorchScanMembers(me: Agent, here: Loc, locs: seq<Loc>, v: View)
    requires IsView(v)
    ensures forall a :: a in TorchScan(me, here, locs, v) ==> ScanEntry(a, me, here, locs, v)
    ensures forall l :: l in locs && RoleAt(v, l) == Some(Headquarters) ==> Heal(here, me) in TorchScan(me, here, locs, v)
    ensures forall l :: l in locs && NeedsRepairAt(v, l) ==> Repair(l, me) in TorchScan(me, here, locs, v)
    ensures forall l :: l in locs && IsBridgeAt(v, l) ==> Protect(l, me) in TorchScan(me, here, locs, v)
    ensures forall l :: l in locs && RoleAt(v, l) == Some(Villain) && SeenAt(v, l).value.health > 0.0 ==>
      Attack(l, me) in TorchScan(me, here, locs, v)
  {
    TorchScanSound(me, here, locs, v);
    TorchScanComplete(me, here, locs, v);
  }

  /**
   * With a positive health: a Move for exactly the empty cells at distance
   * 1, a Heal on the Torch's own location exactly when a Headquarters cell
   * is in scan range, a Repair for exactly the bridges in range below full
   * health, a Protect for every bridge in range, an Attack for exactly the
   * villains in range with positive health, and nothing else.
   */
  lemma TorchMembers(me: Agent, here: Loc, health: real, moveLocs: seq<Loc>, scanLocs: seq<Loc>, v: View, l: Loc)
    requires IsView(v)
    ensures var acts := TorchRules(me, here, health, moveLocs, scanLocs, v);
      (Move(l, me, false) in acts <==> l in moveLocs && Vacant(v, l))
      && (Heal(l, me) in acts <==>
            health > 0.0 && l == here && exists c :: c in scanLocs && RoleAt(v, c) == Some(Headquarters))
      && (Repair(l, me) in acts <==> health > 0.0 && l in scanLocs && NeedsRepairAt(v, l))
      && (Protect(l, me) in acts <==> health > 0.0 && l in scanLocs && IsBridgeAt(v, l))
      && (Attack(l, me) in acts <==>
            health > 0.0 && l in scanLocs && RoleAt(v, l) == Some(Villain) && SeenAt(v, l).value.health > 0.0)
  {
    TorchMovesMembers(me, moveLocs, v);
    TorchScanMembers(me, here, scanLocs, v);
    TorchMoveEntry(me, here, health, moveLocs, scanLocs, v, l);
    TorchScanEntry(me, here, health, moveLocs, scanLocs, v, Heal(l, me));
    TorchScanEntry(me, here, health, moveLocs, scanLocs, v, Repair(l, me));
    TorchScanEntry(me, here, health, moveLocs, scanLocs, v, Protect(l, me));
    TorchScanEntry(me, here, health, moveLocs, scanLocs, v, Attack(l, me));
  }

  /** A Move is in the list exactly when the first loop put it there. */
  lemma TorchMoveEntry(me: Agent, here: Loc, health: real, moveLocs: seq<Loc>, scanLocs: seq<Loc>, v: View, l: Loc)
    requires IsView(v)
    ensures Move(l, me, false) in TorchRules(me, here, health, moveLocs, scanLocs, v)
        <==> Move(l, me, false) in TorchMoves(me, moveLocs, v)
  {
    var m := Move(l, me, false);
    TorchScanSound(me, here, scanLocs, v);
    assert m in TorchScan(me, here, scanLocs, v) ==> ScanEntry(m, me, here, scanLocs, v);
  }

  /** Any other action is in the list exactly when the second loop ran and put it there. */
  lemma TorchScanEntry(me: Agent, here: Loc, health: real, moveLocs: seq<Loc>, scanLocs: seq<Loc>, v: View, a: Action)
    requires IsView(v) && !a.Move?
    ensures a in TorchRules(me, here, health, moveLocs, scanLocs, v)
        <==> health > 0.0 && a in TorchScan(me, here, scanLocs, v)
  {
    TorchMovesMembers(me, moveLocs, v);
    assert a !in TorchMoves(me, moveLocs, v);
  }

  /** Every Move comes before every other action; with no health left there are only Moves. */
  lemma TorchMovesFirst(me: Agent, here: Loc, health: real, moveLocs: seq<Loc>, scanLocs: seq<Loc>, v: View)
    requires IsView(v)
    ensures var acts := TorchRules(me, here, health, moveLocs, scanLocs, v);
      (forall i, j :: 0 <= i < j < |acts| && acts[j].Move? ==> acts[i].Move?)
      && (health <= 0.0 ==> forall a :: a in acts ==> a.Move?)
  {
    TorchMovesMembers(me, moveLocs, v);
    TorchScanMembers(me, here, scanLocs, v);
    var moves := TorchMoves(me, moveLocs, v);
    var acts := TorchRules(me, here, health, moveLocs, scanLocs, v);
    assert forall a :: a in TorchScan(me, here, scanLocs, v) ==> !a.Move?;
    forall i, j | 0 <= i < j < |acts| && acts[j].Move?
      ensures acts[i].Move?
    {
      assert j < |moves|;
      assert acts[i] in moves;
    }
  }

  /** A hero or Franklin in scan range is the target of no action. */
  lemma TorchIgnoresHeroes(me: Agent, here: Loc, health: real, v: View, l: Loc)
    requires IsView(v) && InBounds(here)
    requires l in Adjacent(here, 5)
    requires RoleAt(v, l) == Some(Hero) || RoleAt(v, l) == Some(Franklin)
    ensures forall a :: a in TorchRules(me, here, health, Adjacent(here, 1), Adjacent(here, 5), v) ==>
      !SameCell(a.target, l)
  {
    AdjacentFacts(here, 1);
    AdjacentFacts(here, 5);
    TorchMovesMembers(me, Adjacent(here, 1), v);
    TorchScanMembers(me, here, Adjacent(here, 5), v);
    forall a | a in TorchRules(me, here, health, Adjacent(here, 1), Adjacent(here, 5), v)
      ensures !SameCell(a.target, l)
    {
      if a in TorchMoves(me, Adjacent(here, 1), v) {
        assert Vacant(v, a.target);
      } else {
        assert ScanEntry(a, me, here, Adjacent(here, 5), v);
      }
    }
  }
}
