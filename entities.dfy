/**
 * Agents, their roles and combat parameters, the actions they can take,
 * health clamping and the tabular Q-learning of model/agents/agent.py.
 */
module Entities {
  import opened Wrappers
  import opened Geometry

  /** AgentRole: VILLAIN = 0, HERO = 1, BRIDGE = 2, FRANKLIN = 3, HEADQUARTERS = 4. */
  datatype Role = Villain | Hero | Bridge | Franklin | Headquarters

  function RoleValue(r: Role): (v: int)
    ensures 0 <= v <= 4
  {
    match r
    case Villain => 0
    case Hero => 1
    case Bridge => 2
    case Franklin => 3
    case Headquarters => 4
  }

  lemma RoleValueInjective(r: Role, s: Role)
    ensures RoleValue(r) == RoleValue(s) <==> r == s
  {
  }

  /** The concrete Python class of an agent. */
  datatype Kind =
    | ReedRichardsKind
    | HumanTorchKind
    | SueStormKind
    | TheThingKind
    | SilverSurferKind
    | GalactusKind
    | BridgeKind
    | FranklinKind
    | HeadquarterKind

  /** The role each class passes to Agent.__init__. */
  function RoleOf(k: Kind): Role
  {
    match k
    case ReedRichardsKind => Hero
    case HumanTorchKind => Hero
    case SueStormKind => Hero
    case TheThingKind => Hero
    case SilverSurferKind => Villain
    case GalactusKind => Villain
    case BridgeKind => Bridge
    case FranklinKind => Franklin
    case HeadquarterKind => Headquarters
  }

  // Per-class attributes, set by each constructor from the configuration
  // classes. None stands both for an attribute the class never sets and for
  // one it sets to None: every reader of these tests `hasattr(..) and .. is
  // not None`, except damage_rate, which is read directly (see HasDamageRate).

  /** bridge_repair_rate copied into repair_rate. */
  function RepairRate(k: Kind): Option<real>
  {
    match k
    case ReedRichardsKind => Some(0.2)
    case HumanTorchKind => Some(0.2)
    case SueStormKind => Some(0.2)
    case TheThingKind => Some(0.4)
    case _ => None
  }

  /** scan_radius copied into scan_range. */
  function ScanRange(k: Kind): Option<int>
  {
    match k
    case ReedRichardsKind => Some(3)
    case HumanTorchKind => Some(5)
    case SueStormKind => Some(1)
    case TheThingKind => Some(1)
    case SilverSurferKind => Some(5)
    case _ => None
  }

  function AttackRate(k: Kind): Option<real>
  {
    match k
    case HumanTorchKind => Some(0.1)
    case TheThingKind => Some(0.1)
    case SilverSurferKind => Some(0.05)
    case GalactusKind => Some(1.0)
    case _ => None
  }

  function CloseAttackRate(k: Kind): Option<real>
  {
    match k
    case TheThingKind => Some(0.2)
    case _ => None
  }

  function RangedAttackEffect(k: Kind): Option<real>
  {
    match k
    case HumanTorchKind => Some(0.001)
    case _ => None
  }

  function RangedAttackHealthReduce(k: Kind): Option<real>
  {
    match k
    case HumanTorchKind => Some(0.02)
    case _ => None
  }

  function AttackHealthReduce(k: Kind): Option<real>
  {
    match k
    case SilverSurferKind => Some(0.01)
    case _ => None
  }

  /** Every class but Headquarter sets damage_rate; reading it on a Headquarter fails. */
  predicate HasDamageRate(k: Kind)
  {
    k != HeadquarterKind
  }

  /** The damage_rate attribute; no class sets it to None. */
  function DamageRate(k: Kind): Option<real>
    requires HasDamageRate(k)
  {
    match k
    case SilverSurferKind => Some(0.8)
    case GalactusKind => Some(0.0)
    case BridgeKind => Some(0.1)
    case _ => Some(1.0)
  }

  /** SueStormConfig.barrier_range. */
  const SueBarrierRange: int := 3
  /** HeroConfig.heal_rate, used by every Heal. */
  const HealRate: real := 0.05
  /** BridgeConfig.initial_bridge_health. */
  const InitialBridgeHealth: real := 0.8
  /** GalactusConfig.gal_dest_zone. */
  const GalactusZone: int := 1

  /** Learning rate, discount and exploration rate of every agent. */
  const Alpha: real := 0.1
  const Gamma: real := 0.9
  const Epsilon: real := 0.2

  /**
   * An action: its target location and the acting agent. Move also carries
   * the move_franklin flag.
   */
  datatype Action =
    | Move(target: Loc, actor: Agent, moveFranklin: bool)
    | Attack(target: Loc, actor: Agent)
    | Heal(target: Loc, actor: Agent)
    | Repair(target: Loc, actor: Agent)
    | Protect(target: Loc, actor: Agent)
    | Retreat(target: Loc, actor: Agent)

  /**
   * The key an action has inside a Q-table entry: a Move is identified by its
   * target x and y (Move.__eq__ and Move.__hash__); any other action by value.
   */
  datatype ActionKey = MoveTo(x: int, y: int) | Other(a: Action)

  function KeyOf(a: Action): (k: ActionKey)
    ensures k.MoveTo? <==> a.Move?
  {
    if a.Move? then MoveTo(a.target.x, a.target.y) else Other(a)
  }

  /** Two Moves share a key exactly when their targets are the same cell. */
  lemma MoveKeys(a: Action, b: Action)
    requires a.Move? && b.Move?
    ensures KeyOf(a) == KeyOf(b) <==> SameCell(a.target, b.target)
  {
  }

  /** A Move never shares a key with an action of another kind. */
  lemma MoveKeyDiffers(a: Action, b: Action)
    requires a.Move? && !b.Move?
    ensures KeyOf(a) != KeyOf(b)
  {
  }

  /** Move.__hash__: the hash of the pair (x, y), modelled as that pair. */
  function MoveHash(a: Action): (h: (int, int))
    requires a.Move?
    ensures h == (a.target.x, a.target.y)
  {
    (a.target.x, a.target.y)
  }

  /** Moves that are equal hash alike. */
  lemma EqualMovesHashAlike(a: Action, b: Action)
    requires a.Move? && b.Move? && KeyOf(a) == KeyOf(b)
    ensures MoveHash(a) == MoveHash(b)
  {
  }

  /**
   * The state part of a Q-table key: get_state of Bridge and Headquarter is
   * the location's (x, y); SueStorm's is the 4-tuple of bins; Galactus and
   * Franklin return None, and the classes that never override get_state are
   * given None too.
   */
  datatype StateKey =
    | NoState
    | Coords(x: int, y: int)
    | SueState(region: int, bridgeDist: int, bridgeHealth: int, enemyDist: int)

  type QKey = (StateKey, ActionKey)

  /** q_table is a defaultdict(float): a missing key reads as 0. */
  function Lookup(q: map<QKey, real>, k: QKey): real
  {
    if k in q then q[k] else 0.0
  }

  // ---------------------------------------------------------------------
  // Health
  // ---------------------------------------------------------------------

  /** reduce_health: subtract p only while health is positive, then clamp at 0. */
  function Reduced(h: real, p: real): (r: real)
    ensures 0.0 <= r
  {
    var h' := h - (if h > 0.0 then p else 0.0);
    if h' < 0.0 then 0.0 else h'
  }

  /** increase_health: add p only while health is below 1, then clamp at 1. */
  function Increased(h: real, p: real): (r: real)
    ensures r <= 1.0
  {
    var h' := h + (if h < 1.0 then p else 0.0);
    if h' > 1.0 then 1.0 else h'
  }

  /**
   * reduce_health never leaves health below 0. Health at 0 stays 0 whatever
   * the power; a negative health is lifted to 0. For positive health and a
   * non-negative power it never rises.
   */
  lemma ReducedFacts(h: real, p: real)
    ensures h == 0.0 ==> Reduced(h, p) == 0.0
    ensures h < 0.0 ==> Reduced(h, p) == 0.0
    ensures h > 0.0 && p <= h ==> Reduced(h, p) == h - p
    ensures h > 0.0 && p > h ==> Reduced(h, p) == 0.0
    ensures 0.0 <= h && 0.0 <= p ==> Reduced(h, p) <= h
  {
  }

  /**
   * increase_health never lifts health above 1. Health at 1 stays 1; health
   * above 1 is lowered to 1. Below 1 and with a non-negative power it never
   * falls.
   */
  lemma IncreasedFacts(h: real, p: real)
    ensures h == 1.0 ==> Increased(h, p) == 1.0
    ensures h > 1.0 ==> Increased(h, p) == 1.0
    ensures h < 1.0 && h + p <= 1.0 ==> Increased(h, p) == h + p
    ensures h < 1.0 && h + p > 1.0 ==> Increased(h, p) == 1.0
    ensures h <= 1.0 && 0.0 <= p ==> h <= Increased(h, p)
  {
  }

  /** With health in [0, 1] and a non-negative power both updates stay in [0, 1]. */
  lemma HealthStaysInUnitRange(h: real, p: real)
    requires 0.0 <= h <= 1.0 && 0.0 <= p
    ensures 0.0 <= Reduced(h, p) <= 1.0
    ensures 0.0 <= Increased(h, p) <= 1.0
  {
  }

  /** A negative power breaks the range: the clamps are one-sided. */
  lemma NegativePowerEscapes()
    ensures Reduced(1.0, -0.5) == 1.5
    ensures Increased(0.0, -0.5) == -0.5
  {
  }

  // ---------------------------------------------------------------------
  // Q-learning
  // ---------------------------------------------------------------------

  function QValue(q: map<QKey, real>, s: StateKey, a: Action): real
  {
    Lookup(q, (s, KeyOf(a)))
  }

  /** max(Q[(s, a)] for a in acts), or 0 when acts is empty. */
  function BestNext(q: map<QKey, real>, s: StateKey, acts: seq<Action>): (m: real)
    ensures acts == [] ==> m == 0.0
    ensures forall i :: 0 <= i < |acts| ==> QValue(q, s, acts[i]) <= m
    ensures acts != [] ==> exists i :: 0 <= i < |acts| && m == QValue(q, s, acts[i])
  {
    if |acts| == 0 then 0.0
    else if |acts| == 1 then QValue(q, s, acts[0])
    else
      var rest := BestNext(q, s, acts[1..]);
      assert forall i :: 1 <= i < |acts| ==> acts[i] == acts[1..][i - 1];
      if QValue(q, s, acts[0]) >= rest then QValue(q, s, acts[0]) else rest
  }

  /** The temporal-difference update of one entry. */
  function Learned(old_: real, reward: int, best: real): real
  {
    old_ + Alpha * (reward as real + Gamma * best - old_)
  }

  /** The update moves the entry a tenth of the way toward the target r + 0.9 * best. */
  lemma LearnedMovesTowardTarget(v: real, reward: int, best: real)
    ensures var target := reward as real + Gamma * best;
      Learned(v, reward, best) == 0.9 * v + 0.1 * target
      && (v <= target ==> v <= Learned(v, reward, best) <= target)
      && (target <= v ==> target <= Learned(v, reward, best) <= v)
  {
  }

  /** The table after update_q's assignment: one entry replaced, all others kept. */
  function UpdatedTable(q: map<QKey, real>, oldState: StateKey, action: Action, reward: int,
                        newState: StateKey, available: seq<Action>): (q': map<QKey, real>)
    ensures Lookup(q', (oldState, KeyOf(action)))
         == Learned(Lookup(q, (oldState, KeyOf(action))), reward, BestNext(q, newState, available))
    ensures q'.Keys == q.Keys + {(oldState, KeyOf(action))}
  {
    var k := (oldState, KeyOf(action));
    q[k := Learned(Lookup(q, k), reward, BestNext(q, newState, available))]
  }

  /** update_q touches no entry but (old_state, action); missing keys still read as 0. */
  lemma UpdateKeepsOtherEntries(q: map<QKey, real>, oldState: StateKey, action: Action, reward: int,
                                newState: StateKey, available: seq<Action>, k: QKey)
    requires k != (oldState, KeyOf(action))
    ensures Lookup(UpdatedTable(q, oldState, action, reward, newState, available), k) == Lookup(q, k)
  {
  }

  /**
   * The index max(acts, key=...) returns: the first action whose Q-value no
   * other action exceeds.
   */
  function FirstBestIndex(q: map<QKey, real>, s: StateKey, acts: seq<Action>): (i: nat)
    requires acts != []
    ensures i < |acts|
    ensures forall j :: 0 <= j < |acts| ==> QValue(q, s, acts[j]) <= QValue(q, s, acts[i])
    ensures forall j :: 0 <= j < i ==> QValue(q, s, acts[j]) < QValue(q, s, acts[i])
  {
    if |acts| == 1 then 0
    else
      var k := FirstBestIndex(q, s, acts[1..]);
      assert forall j :: 1 <= j < |acts| ==> acts[j] == acts[1..][j - 1];
      if QValue(q, s, acts[0]) >= QValue(q, s, acts[1..][k]) then 0 else k + 1
  }

  /** The outcome of pick_action. */
  datatype Pick =
    | NoAction            // actions(...) returned None
    | Picked(action: Action)
    | EmptyChoice         // max() or random.choice() on an empty list raises

  /**
   * The decision pick_action takes once the action list and state are known.
   * `explore` is None when random.random() >= epsilon; Some(i) when it is
   * below, i then standing for random.choice's draw.
   */
  function Choose(q: map<QKey, real>, s: StateKey, available: Option<seq<Action>>,
                  explore: Option<nat>): (p: Pick)
    ensures available == None <==> p == NoAction
    ensures p == EmptyChoice <==> available == Some([])
    ensures p.Picked? ==> p.action in available.value
    ensures p.Picked? && explore == None ==>
      (forall a :: a in available.value ==> QValue(q, s, a) <= QValue(q, s, p.action))
  {
    match available
    case None => NoAction
    case Some(acts) =>
      if acts == [] then EmptyChoice
      else match explore
        case Some(i) => Picked(acts[i % |acts|])
        case None => Picked(acts[FirstBestIndex(q, s, acts)])
  }

  /** On the greedy branch the pick is the first action of maximal Q-value. */
  lemma GreedyPicksFirstBest(q: map<QKey, real>, s: StateKey, acts: seq<Action>)
    requires acts != []
    ensures exists i :: (0 <= i < |acts|
      && Choose(q, s, Some(acts), None) == Picked(acts[i])
      && (forall j :: 0 <= j < |acts| ==> QValue(q, s, acts[j]) <= QValue(q, s, acts[i]))
      && (forall j :: 0 <= j < i ==> QValue(q, s, acts[j]) < QValue(q, s, acts[i])))
  {
    var i := FirstBestIndex(q, s, acts);
    assert Choose(q, s, Some(acts), None) == Picked(acts[i]);
  }

  // ---------------------------------------------------------------------
  // Agent
  // ---------------------------------------------------------------------

  class Agent {
    /** The Python class; the role follows from it. */
    const kind: Kind
    var location: Option<Loc>
    var health: real
    var q: map<QKey, real>

    /** Agent.__init__: health defaults to 1.0 and the Q-table starts empty. */
    constructor (kind: Kind, location: Option<Loc>, health: Option<real>)
      ensures this.kind == kind && this.location == location
      ensures this.health == (if health.Some? then health.value else 1.0)
      ensures q == map[]
    {
      this.kind := kind;
      this.location := location;
      this.health := if health.Some? then health.value else 1.0;
      q := map[];
    }

    function Role(): Role
    {
      RoleOf(kind)
    }

    method SetLocation(l: Option<Loc>)
      modifies this
      ensures location == l && health == old(health) && q == old(q)
    {
      location := l;
    }

    method ReduceHealth(power: real)
      modifies this
      ensures health == Reduced(old(health), power)
      ensures location == old(location) && q == old(q)
    {
      health := health - (if health > 0.0 then power else 0.0);
      if health < 0.0 {
        health := 0.0;
      }
    }

    method IncreaseHealth(power: real)
      modifies this
      ensures health == Increased(old(health), power)
      ensures location == old(location) && q == old(q)
    {
      health := health + (if health < 1.0 then power else 0.0);
      if health > 1.0 {
        health := 1.0;
      }
    }

    /**
     * update_q given what actions(env) returned on its second call (the first
     * call only decides whether the list is None).
     */
    method UpdateQ(oldState: StateKey, action: Action, reward: int, newState: StateKey,
                   available: Option<seq<Action>>)
      modifies this
      ensures available == None ==> q == old(q)
      ensures available.Some? ==>
        q == UpdatedTable(old(q), oldState, action, reward, newState, available.value)
      ensures location == old(location) && health == old(health)
    {
      if available == None {
        return;
      }
      var best := BestNext(q, newState, available.value);
      var key := (oldState, KeyOf(action));
      q := q[key := Lookup(q, key) + Alpha * (reward as real + Gamma * best - Lookup(q, key))];
    }
  }

  /**
   * Agent.__eq__: agents are equal when their locations are (x and y only;
   * role and class are ignored). Comparing a located agent with an unlocated
   * one fails in Python, so both or neither must have a location.
   */
  predicate SameAgentPlace(a: Agent, b: Agent)
    reads a, b
    requires a.location.None? == b.location.None?
  {
    a.location.None? || SameCell(a.location.value, b.location.value)
  }

  /** Agent equality is an equivalence on agents that all have a location. */
  lemma SameAgentPlaceIsEquivalence(a: Agent, b: Agent, c: Agent)
    requires a.location.Some? && b.location.Some? && c.location.Some?
    ensures SameAgentPlace(a, a)
    ensures SameAgentPlace(a, b) ==> SameAgentPlace(b, a)
    ensures SameAgentPlace(a, b) && SameAgentPlace(b, c) ==> SameAgentPlace(a, c)
  {
  }
}
