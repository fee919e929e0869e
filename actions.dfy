/**
 * What executing each action does to the Earth and to agents' health, and
 * the reward it returns (the classes under model/actions).
 */
module Effects {
  import opened Wrappers
  import opened Geometry
  import opened Entities
  import opened World

  // ---------------------------------------------------------------------
  // Move
  // ---------------------------------------------------------------------

  /** move_dir: the target's offset from the mover, each component in [0, W). */
  function MoveDir(from: Loc, to: Loc): (d: (int, int))
    ensures 0 <= d.0 < W && 0 <= d.1 < W
    ensures (from.x + d.0) % W == to.x % W && (from.y + d.1) % W == to.y % W
  {
    ((W + to.x - from.x) % W, (W + to.y - from.y) % W)
  }

  /** franklin_loc: Franklin's location shifted by d, not reduced mod W, range 0. */
  function Shifted(l: Loc, d: (int, int)): Loc
  {
    Cell(l.x + d.0, l.y + d.1)
  }

  /**
   * The grid after Move.execute: the mover's cells cleared, then (with the
   * flag) Franklin's; the mover written at the target; then Franklin at its
   * shifted location. `co` is Franklin and its location when the flag is set.
   */
  function MovedGrid(g: Grid, mover: Agent, from: Loc, target: Loc, co: Option<(Agent, Loc)>): (g': Grid)
    requires IsGrid(g)
    ensures IsGrid(g')
  {
    var g1 := Place(g, null, Some(from));
    var g2 := if co.Some? then Place(g1, null, Some(co.value.1)) else g1;
    var g3 := Place(g2, mover, Some(target));
    if co.Some? then Place(g3, co.value.0, Some(Shifted(co.value.1, MoveDir(from, target)))) else g3
  }

  /** The Franklin-class agent a flagged Move carries along: the first in row-major order. */
  function CoMoved(g: Grid, m: Action): set<Agent>
    requires m.Move? && (m.moveFranklin ==> Franklins(g) != [])
  {
    if m.moveFranklin then {Franklins(g)[0]} else {}
  }

  /** The first Franklin-class occupant and its location, when the Move carries Franklin. */
  function CoMover(env: Earth, m: Action): Option<(Agent, Loc)>
    reads env, env.Occupants()
    requires env.Valid() && m.Move?
    requires m.moveFranklin ==> Franklins(env.grid) != []
  {
    if m.moveFranklin then
      var f := Franklins(env.grid)[0];
      assert f in Flatten(env.grid);
      Some((f, if f.location.Some? then f.location.value else Cell(0, 0)))
    else None
  }

  /** Move.execute. */
  method ExecuteMove(m: Action, env: Earth) returns (reward: int)
    requires m.Move? && env.Valid()
    requires m.actor.location.Some?
    requires m.moveFranklin ==> Franklins(env.grid) != [] && Franklins(env.grid)[0].location.Some?
    modifies env, m.actor, CoMoved(env.grid, m)
    ensures reward == 0
    ensures env.Valid()
    ensures env.grid == MovedGrid(old(env.grid), m.actor, old(m.actor.location.value), m.target, old(CoMover(env, m)))
    ensures !m.moveFranklin ==> m.actor.location == Some(m.target)
    ensures m.moveFranklin ==>
      var co := old(CoMover(env, m)).value;
      co.0.location == Some(Shifted(co.1, MoveDir(old(m.actor.location.value), m.target)))
      && (co.0 != m.actor ==> m.actor.location == Some(m.target))
    ensures m.actor.health == old(m.actor.health) && m.actor.q == old(m.actor.q)
    ensures m.moveFranklin ==>
      old(CoMover(env, m)).value.0.health == old(CoMover(env, m).value.0.health)
      && old(CoMover(env, m)).value.0.q == old(CoMover(env, m).value.0.q)
    ensures env.buffer == old(env.buffer) && env.status == old(env.status)
    ensures env.surferPresent == old(env.surferPresent) && env.surferFlagAt == old(env.surferFlagAt)
  {
    ghost var co := CoMover(env, m);
    var carried: Option<(Agent, Loc)> := None;
    if m.moveFranklin {
      var franklin := Franklins(env.GetGrid())[0];
      assert franklin in Flatten(env.grid);
      carried := Some((franklin, franklin.location.value));
    }
    assert carried == co;
    var from := m.actor.location.value;
    var franklinLoc := ShiftCells(env, m.actor, from, m.target, carried);
    m.actor.SetLocation(Some(m.target));
    if carried.Some? {
      carried.value.0.SetLocation(Some(franklinLoc));
    }
    return 0;
  }

  /**
   * The grid half of Move.execute: empty the mover's cells and the carried
   * Franklin's, then place both; returns Franklin's new cell.
   */
  method ShiftCells(env: Earth, mover: Agent, from: Loc, target: Loc, carried: Option<(Agent, Loc)>)
    returns (franklinLoc: Loc)
    requires env.Valid()
    modifies env
    ensures env.Valid()
    ensures env.grid == MovedGrid(old(env.grid), mover, from, target, carried)
    ensures carried.Some? ==> franklinLoc == Shifted(carried.value.1, MoveDir(from, target))
    ensures env.buffer == old(env.buffer) && env.status == old(env.status)
    ensures env.surferPresent == old(env.surferPresent) && env.surferFlagAt == old(env.surferFlagAt)
  {
    env.SetAgent(null, Some(from));
    if carried.Some? {
      env.SetAgent(null, Some(carried.value.1));
    }
    var moveDir := MoveDir(from, target);
    franklinLoc := Cell(0, 0);
    if carried.Some? {
      franklinLoc := Cell(carried.value.1.x + moveDir.0, carried.value.1.y + moveDir.1);
    }
    env.SetAgent(mover, Some(target));
    if carried.Some? {
      env.SetAgent(carried.value.0, Some(franklinLoc));
    }
  }

  /**
   * Without the flag: the target's cells hold the mover, the mover's other
   * old cells are empty, and every other cell is unchanged.
   */
  lemma MoveCells(g: Grid, mover: Agent, from: Loc, target: Loc, x: int, y: int)
    requires IsGrid(g) && 0 <= x < W && 0 <= y < W
    ensures MovedGrid(g, mover, from, target, None)[y][x]
         == if Covers(Some(target), x, y) then mover
            else if Covers(Some(from), x, y) then null
            else g[y][x]
  {
    var g1 := Place(g, null, Some(from));
    PlaceCell(g, null, Some(from), x, y);
    PlaceCell(g1, mover, Some(target), x, y);
  }

  /**
   * With the flag: Franklin holds its shifted cell, the mover holds the rest
   * of the target, both old footprints are otherwise empty, and nothing else
   * changes.
   */
  lemma MoveCellsWithFranklin(g: Grid, mover: Agent, from: Loc, target: Loc, f: Agent, fl: Loc, x: int, y: int)
    requires IsGrid(g) && 0 <= x < W && 0 <= y < W
    ensures var fNew := Shifted(fl, MoveDir(from, target));
      MovedGrid(g, mover, from, target, Some((f, fl)))[y][x]
         == if Covers(Some(fNew), x, y) then f
            else if Covers(Some(target), x, y) then mover
            else if Covers(Some(from), x, y) || Covers(Some(fl), x, y) then null
            else g[y][x]
  {
    var g1 := Place(g, null, Some(from));
    var g2 := Place(g1, null, Some(fl));
    var g3 := Place(g2, mover, Some(target));
    PlaceCell(g, null, Some(from), x, y);
    PlaceCell(g1, null, Some(fl), x, y);
    PlaceCell(g2, mover, Some(target), x, y);
    PlaceCell(g3, f, Some(Shifted(fl, MoveDir(from, target))), x, y);
  }

  /** Franklin's stored coordinates are not wrapped: they can pass W. */
  lemma FranklinCoordinatesNotWrapped()
    ensures Shifted(Cell(6, 6), MoveDir(Cell(5, 5), Cell(4, 4))) == Cell(35, 35)
    ensures At(EmptyGrid(), Cell(35, 35)) == At(EmptyGrid(), Cell(5, 5))
  {
  }

  // ---------------------------------------------------------------------
  // Attack
  // ---------------------------------------------------------------------

  /** is_target_villain: 0 for an empty cell, 1 for a villain, -1 for any other role. */
  function TargetSign(occupant: Option<Role>): int
  {
    match occupant
    case None => 0
    case Some(r) => if r == Villain then 1 else -1
  }

  /** Every branch that sets the reward sets it to 3 * is_target_villain. */
  function AttackReward(occupant: Option<Role>): (r: int)
    ensures occupant == Some(Villain) <==> r == 3
    ensures occupant.Some? && occupant != Some(Villain) <==> r == -3
    ensures occupant == None <==> r == 0
  {
    3 * TargetSign(occupant)
  }

  /**
   * The attacker's health after its own costs: ranged_attack_health_reduce
   * when it has a ranged_attack_effect and the distance is above 1, then
   * attack_health_reduce when it has one.
   */
  function AttackerHealthAfter(k: Kind, h: real, distance: int): real
  {
    var h1 := if RangedAttackEffect(k).Some? && distance > 1 && RangedAttackHealthReduce(k).Some?
              then Reduced(h, RangedAttackHealthReduce(k).value) else h;
    if AttackHealthReduce(k).Some? then Reduced(h1, AttackHealthReduce(k).value) else h1
  }

  /** The damage dealt: the attacker's own attack_rate times the target's damage_rate (None as 1.0). */
  function Damage(attacker: Kind, target: Kind): real
    requires AttackRate(attacker).Some? && HasDamageRate(target)
  {
    AttackRate(attacker).value * (if DamageRate(target).Some? then DamageRate(target).value else 1.0)
  }

  /** Only the class's attack_rate enters the damage; the distance never does. */
  lemma DamageIgnoresDistance(attacker: Kind, target: Kind)
    requires AttackRate(attacker).Some? && HasDamageRate(target)
    ensures attacker == HumanTorchKind ==> Damage(attacker, target) == 0.1 * DamageRate(target).value
    ensures attacker == TheThingKind ==> Damage(attacker, target) == 0.1 * DamageRate(target).value
    ensures target == GalactusKind ==> Damage(attacker, target) == 0.0
  {
  }

  /** The distance the ranged check uses: from the target to the attacker (ceil is a no-op on ints). */
  function AttackDistance(target: Loc, attacker: Option<Loc>): int
  {
    if attacker.Some? then Dist(target, attacker.value) else 0
  }

  function Occupied(env: Earth, l: Loc): set<Agent>
    reads env
    requires env.Valid()
  {
    var t := env.GetAgent(Some(l));
    if t == null then {} else {t}
  }

  /** Attack.execute. */
  method ExecuteAttack(m: Action, env: Earth) returns (reward: int)
    requires m.Attack? && env.Valid()
    requires AttackRate(m.actor.kind).Some?
    requires RangedAttackEffect(m.actor.kind).Some? ==> m.actor.location.Some?
    requires env.GetAgent(Some(m.target)) != null ==> HasDamageRate(env.GetAgent(Some(m.target)).kind)
    modifies m.actor, Occupied(env, m.target)
    ensures reward == AttackReward(old(RoleAt(env.View(), m.target)))
    ensures var t := old(env.GetAgent(Some(m.target)));
      var h := AttackerHealthAfter(m.actor.kind, old(m.actor.health),
                                   AttackDistance(m.target, old(m.actor.location)));
      if t == null then m.actor.health == h
      else if t == m.actor then m.actor.health == Reduced(h, Damage(m.actor.kind, t.kind))
      else m.actor.health == h && t.health == Reduced(old(t.health), Damage(m.actor.kind, t.kind))
    ensures m.actor.location == old(m.actor.location) && m.actor.q == old(m.actor.q)
    ensures forall a :: a in Occupied(env, m.target) ==> a.location == old(a.location) && a.q == old(a.q)
  {
    env.ViewAt(m.target);
    var target := env.GetAgent(Some(m.target));
    reward := 0;
    var isTargetVillain := if target == null then 0 else if target.Role() == Villain then 1 else -1;
    var attackRate := AttackRate(m.actor.kind).value;
    if CloseAttackRate(m.actor.kind).Some? {
      attackRate := CloseAttackRate(m.actor.kind).value;
    }
    if RangedAttackEffect(m.actor.kind).Some? {
      var distance := Dist(m.target, m.actor.location.value);
      if distance > 1 {
        attackRate := attackRate - RangedAttackEffect(m.actor.kind).value * distance as real;
        assert RangedAttackHealthReduce(m.actor.kind).Some?;
        m.actor.ReduceHealth(RangedAttackHealthReduce(m.actor.kind).value);
        reward := 3 * isTargetVillain;
      }
    }
    if AttackHealthReduce(m.actor.kind).Some? {
      m.actor.ReduceHealth(AttackHealthReduce(m.actor.kind).value);
      reward := 3 * isTargetVillain;
    }
    if target != null {
      var damageRate := if DamageRate(target.kind).Some? then DamageRate(target.kind).value else 1.0;
      target.ReduceHealth(AttackRate(m.actor.kind).value * damageRate);
      reward := 3 * isTargetVillain;
    }
  }

  // ---------------------------------------------------------------------
  // Heal, Repair, Protect, Retreat
  // ---------------------------------------------------------------------

  /** Heal's reward: -3 for a villain actor, 3 for any other. */
  function HealReward(r: Role): (v: int)
    ensures r == Villain <==> v == -3
    ensures r != Villain <==> v == 3
  {
    if r == Villain then -3 else 3
  }

  /** Heal.execute: the actor heals itself by heal_rate; the target is ignored. */
  method ExecuteHeal(m: Action, env: Earth) returns (reward: int)
    requires m.Heal?
    modifies m.actor
    ensures m.actor.health == Increased(old(m.actor.health), HealRate)
    ensures m.actor.location == old(m.actor.location) && m.actor.q == old(m.actor.q)
    ensures reward == HealReward(m.actor.Role())
  {
    m.actor.IncreaseHealth(HealRate);
    if m.actor.Role() == Villain {
      return -3;
    } else {
      return 3;
    }
  }

  /** Repair.execute: any occupant of the target is repaired by the actor's repair_rate. */
  method ExecuteRepair(m: Action, env: Earth) returns (reward: int)
    requires m.Repair? && env.Valid()
    requires env.GetAgent(Some(m.target)) != null ==> RepairRate(m.actor.kind).Some?
    modifies Occupied(env, m.target)
    ensures var t := old(env.GetAgent(Some(m.target)));
      (t == null ==> reward == 0)
      && (t != null ==> reward == 10
                        && t.health == Increased(old(t.health), RepairRate(m.actor.kind).value)
                        && t.location == old(t.location) && t.q == old(t.q))
  {
    var target := env.GetAgent(Some(m.target));
    if target != null {
      target.IncreaseHealth(RepairRate(m.actor.kind).value);
      return 10;
    }
    return 0;
  }

  /** Protect.execute: no effect at all, reward 0. */
  method ExecuteProtect(m: Action, env: Earth) returns (reward: int)
    requires m.Protect?
    ensures reward == 0
  {
    return 0;
  }

  /** Retreat.execute: lower the surfer flag, drop the actor's location, empty the target. */
  method ExecuteRetreat(m: Action, env: Earth) returns (reward: int)
    requires m.Retreat? && env.Valid()
    modifies env, m.actor
    ensures env.Valid()
    ensures !env.surferPresent && env.surferFlagAt == Some(m.target)
    ensures m.actor.location == None && m.actor.health == old(m.actor.health) && m.actor.q == old(m.actor.q)
    ensures env.grid == Place(old(env.grid), null, Some(m.target))
    ensures env.buffer == old(env.buffer) && env.status == old(env.status)
    ensures reward == 0
  {
    env.SetSurferFlag(false, m.target);
    m.actor.SetLocation(None);
    env.SetAgent(null, Some(m.target));
    return 0;
  }

  /** After a Retreat the target cell is empty and every cell it does not cover is unchanged. */
  lemma RetreatCells(g: Grid, target: Loc, x: int, y: int)
    requires IsGrid(g) && 0 <= x < W && 0 <= y < W
    ensures Place(g, null, Some(target))[y][x] == if Covers(Some(target), x, y) then null else g[y][x]
    ensures target.range == 0 ==> At(Place(g, null, Some(target)), target) == null
  {
    PlaceCell(g, null, Some(target), x, y);
    if target.range == 0 {
      PlaceThenRead(g, null, target);
    }
  }
}
