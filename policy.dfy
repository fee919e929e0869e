/**
 * The per-class dispatch of model/agents/agent.py: which actions() and
 * get_state() each agent class runs, and pick_action, which ties them to
 * the Q-table choice.
 */
module Policy {
  import opened Wrappers
  import opened Geometry
  import opened Entities
  import opened World
  import opened ReedRichards
  import opened HumanTorch
  import opened Scan
  import opened SueStorm
  import opened Galactus

  // ---------------------------------------------------------------------
  // What a running simulation keeps true of the grid
  // ---------------------------------------------------------------------

  /**
   * Every occupant of the grid has a location and some bridge stands on the
   * grid: what get_state and actions() read without raising.
   */
  ghost predicate Populated(env: Earth)
    reads env, env.Occupants()
    requires env.Valid()
  {
    PopulatedGrid(env.grid)
  }

  ghost predicate PopulatedGrid(g: Grid)
    reads OccupantsOf(g)
    requires IsGrid(g)
  {
    (forall y, x :: 0 <= y < W && 0 <= x < W && g[y][x] != null ==> g[y][x].location.Some?)
    && exists y, x :: 0 <= y < W && 0 <= x < W && g[y][x] != null && g[y][x].kind == BridgeKind
  }

  /** A call that changes no agent on the grid but `who`, which keeps a location, leaves the grid populated. */
  twostate lemma PopulatedKept(env: Earth, new who: Agent)
    requires old(env.Valid()) && old(Populated(env)) && env.grid == old(env.grid)
    requires forall a | a in old(env.Occupants()) :: a == who || unchanged(a)
    requires who.location.Some?
    ensures env.Valid() && Populated(env)
  {
    ghost var row, col :| 0 <= row < W && 0 <= col < W && env.grid[row][col] != null && env.grid[row][col].kind == BridgeKind;
    forall y, x | 0 <= y < W && 0 <= x < W && env.grid[y][x] != null
      ensures env.grid[y][x].location.Some?
    {
      assert env.grid[y][x] in old(env.Occupants());
    }
  }

  /** Every occupant a view of a populated grid shows carries a location. */
  lemma ViewLocated(env: Earth, r: Role)
    requires env.Valid() && Populated(env)
    ensures Located(OfRole(Flatten(env.View()), r))
  {
    var v := env.View();
    forall o | o in OfRole(Flatten(v), r)
      ensures o.location.Some?
    {
      assert Some(o) in Flatten(v);
      var y, x :| 0 <= y < |v| && 0 <= x < |v[y]| && v[y][x] == Some(o);
      assert v[y][x] == SeenOf(env.grid[y][x]);
    }
  }

  /** A populated grid shows at least one bridge. */
  lemma ViewHasBridge(env: Earth)
    requires env.Valid() && Populated(env)
    ensures Bridges(env.View()) != []
  {
    var v := env.View();
    var y, x :| 0 <= y < W && 0 <= x < W && env.grid[y][x] != null && env.grid[y][x].kind == BridgeKind;
    assert v[y][x] == SeenOf(env.grid[y][x]);
    assert v[y][x] in Flatten(v);
  }

  /** The Franklin Sue would carry along is a Franklin standing on the grid. */
  lemma FranklinNearFacts(me: Agent, env: Earth)
    requires env.Valid() && me.location.Some?
    ensures forall a :: a in FranklinNear(me, env) ==> a.kind == FranklinKind && a in env.Occupants()
  {
    var v := env.View();
    var f := LastFranklin(Adjacent(me.location.value, 1), v);
    if f.Some? {
      var l :| l in Adjacent(me.location.value, 1) && SeenAt(v, l) == f;
      env.ViewAt(l);
    }
  }

  // ---------------------------------------------------------------------
  // actions() and get_state() by class
  // ---------------------------------------------------------------------

  /** The classes whose actions() builds a list; Bridge, Headquarter and Franklin return None. */
  predicate Acting(k: Kind)
  {
    !(k == BridgeKind || k == HeadquarterKind || k == FranklinKind)
  }

  /**
   * What each class's actions() needs to run without raising: an in-bounds
   * location to scan around, and for Sue and Galactus the locations their
   * rules read.
   */
  predicate ActionsDefined(k: Kind, here: Option<Loc>, v: View)
    requires IsView(v)
  {
    Acting(k) ==>
      here.Some? && InBounds(here.value)
      && (k == SueStormKind ==> FranklinReady(Adjacent(here.value, 1), v))
      && (k == GalactusKind ==> GalactusReady(v))
  }

  /**
   * actions(environment) of the agent's class, given the view at the call,
   * its location and health, and `pick` standing for Galactus's random draw.
   * TheThing and SilverSurfer compute their neighbourhoods but add nothing.
   */
  function Available(me: Agent, here: Option<Loc>, health: real, v: View, pick: nat): (acts: Option<seq<Action>>)
    requires IsView(v) && ActionsDefined(me.kind, here, v)
    ensures acts.None? <==> !Acting(me.kind)
    ensures me.kind == TheThingKind || me.kind == SilverSurferKind ==> acts == Some([])
    ensures me.kind == SueStormKind ==> acts.Some? && acts.value != []
    ensures me.kind == GalactusKind ==> acts.Some? && |acts.value| == 1
  {
    match me.kind
    case ReedRichardsKind => Some(ReedRules(me, Adjacent(here.value, 1), v))
    case HumanTorchKind => Some(TorchRules(me, here.value, health, Adjacent(here.value, 1), Adjacent(here.value, 5), v))
    case SueStormKind => Some(SueRules(me, here.value, Adjacent(here.value, 1), v).0)
    case GalactusKind => Some(GalactusRules(me, here.value, v, pick))
    case TheThingKind => Some([])
    case SilverSurferKind => Some([])
    case BridgeKind => None
    case HeadquarterKind => None
    case FranklinKind => None
  }

  /** What get_state needs: a location for the classes that read it, and Sue's bridges and heroes. */
  predicate StateReadable(k: Kind, here: Option<Loc>, v: View)
  {
    (k == BridgeKind || k == HeadquarterKind || k == SueStormKind ==> here.Some?)
    && (k == SueStormKind ==> StateDefined(v))
  }

  /**
   * get_state of the agent's class. Bridge and Headquarter report their
   * coordinates, SueStorm its four bins; Galactus and Franklin return None,
   * as do the classes that never override the abstract get_state.
   */
  function GetState(k: Kind, here: Option<Loc>, v: View): (s: StateKey)
    requires StateReadable(k, here, v)
    ensures s.Coords? <==> k == BridgeKind || k == HeadquarterKind
    ensures s.Coords? ==> s == Coords(here.value.x, here.value.y)
    ensures s.SueState? <==> k == SueStormKind
  {
    match k
    case BridgeKind => Coords(here.value.x, here.value.y)
    case HeadquarterKind => Coords(here.value.x, here.value.y)
    case SueStormKind => SueGetState(here.value, v)
    case _ => NoState
  }

  /** On a populated grid every class's actions() and get_state() are defined. */
  lemma PopulatedIsReady(env: Earth, k: Kind, here: Option<Loc>)
    requires env.Valid() && Populated(env)
    requires Acting(k) ==> here.Some? && InBounds(here.value)
    ensures ActionsDefined(k, here, env.View())
    ensures (k == BridgeKind || k == HeadquarterKind ==> here.Some?) ==> StateReadable(k, here, env.View())
  {
    var v := env.View();
    ViewLocated(env, Bridge);
    ViewLocated(env, Hero);
    ViewLocated(env, Franklin);
    ViewHasBridge(env);
    if k == SueStormKind {
      var locs := Adjacent(here.value, 1);
      var f := LastFranklin(locs, v);
      if f.Some? {
        var l :| l in locs && SeenAt(v, l) == f;
        env.ViewAt(l);
      }
    }
  }

  /**
   * Which outcome pick_action has for each class, whatever the Q-table,
   * state and draw: None for the classes without actions, a raise (max or
   * random.choice of an empty list) for TheThing and SilverSurfer, and
   * always an action for SueStorm, whose list holds at least the barrier,
   * and for Galactus, whose list holds its one Move.
   */
  lemma PickOutcomes(me: Agent, here: Option<Loc>, health: real, v: View, pick: nat,
                     q: map<QKey, real>, s: StateKey, explore: Option<nat>)
    requires IsView(v) && ActionsDefined(me.kind, here, v)
    ensures var p := Choose(q, s, Available(me, here, health, v, pick), explore);
      (p == NoAction <==> !Acting(me.kind))
      && (me.kind == TheThingKind || me.kind == SilverSurferKind ==> p == EmptyChoice)
      && (me.kind == SueStormKind || me.kind == GalactusKind ==> p.Picked?)
  {
  }

  // ---------------------------------------------------------------------
  // pick_action
  // ---------------------------------------------------------------------

  /**
   * `p` is what pick_action returns for an agent standing at `here` with
   * this health and Q-table: actions() read on the view `before`, None if
   * that is None, otherwise the Q-table choice under get_state read on the
   * view `after` that actions() left (the two differ only where SueStorm
   * carried a Franklin along).
   */
  ghost predicate PicksOn(me: Agent, here: Option<Loc>, health: real, q: map<QKey, real>,
                          before: View, after: View, explore: Option<nat>, pick: nat, p: Pick)
  {
    IsView(before) && ActionsDefined(me.kind, here, before)
    && (Acting(me.kind) ==> StateReadable(me.kind, here, after))
    && var acts := Available(me, here, health, before, pick);
       p == if acts.None? then NoAction else Choose(q, GetState(me.kind, here, after), acts, explore)
  }

  /**
   * Agent.pick_action: actions() first (SueStorm may carry a Franklin along),
   * None if that is None, then get_state on the environment as actions()
   * left it, then the Q-table choice. `explore` stands for the draw against
   * epsilon and random.choice's index, `pick` for Galactus's draw.
   */
  method PickAction(me: Agent, env: Earth, explore: Option<nat>, pick: nat) returns (p: Pick)
    requires env.Valid() && Populated(env)
    requires Acting(me.kind) ==> me.location.Some? && InBounds(me.location.value)
    requires me.kind == BridgeKind || me.kind == HeadquarterKind ==> me.location.Some?
    modifies if me.kind == SueStormKind then FranklinNear(me, env) else {}
    ensures env.Valid() && env.grid == old(env.grid) && Populated(env)
    ensures me.location == old(me.location) && me.q == old(me.q)
    ensures StateReadable(me.kind, me.location, env.View())
    ensures PicksOn(me, me.location, old(me.health), me.q, old(env.View()), env.View(), explore, pick, p)
    ensures p == NoAction <==> !Acting(me.kind)
    ensures me.kind == TheThingKind || me.kind == SilverSurferKind ==> p == EmptyChoice
    ensures me.kind == SueStormKind || me.kind == GalactusKind ==> p.Picked?
    ensures forall a | a in old(env.Occupants()) :: a.health == old(a.health) && a.q == old(a.q)
    ensures me.kind == SueStormKind ==> CarriedAlong(me, old(me.location.value), old(env.View()))
    ensures me.kind == SueStormKind ==> env.View() == SueAfter(me, old(me.location.value), old(env.View()))
  {
    PopulatedIsReady(env, me.kind, me.location);
    ghost var v := env.View();
    label L:
    var acts;
    if me.kind == SueStormKind {
      var a := SueTurn(me, env);
      acts := Some(a);
      PopulatedIsReady(env, me.kind, me.location);
    } else {
      acts := ActionsOf(me, env, pick);
      assert unchanged@L(env);
      ViewKept@L(env);
    }
    if acts.None? {
      return NoAction;
    }
    var state := GetState(me.kind, me.location, env.View());
    p := Choose(me.q, state, acts, explore);
    PickOutcomes(me, me.location, me.health, v, pick, me.q, state, explore);
  }

  /** self.actions(environment) of every class but SueStorm, dispatched on the class; none changes anything. */
  method ActionsOf(me: Agent, env: Earth, pick: nat) returns (acts: Option<seq<Action>>)
    requires env.Valid() && me.kind != SueStormKind && ActionsDefined(me.kind, me.location, env.View())
    ensures acts == old(Available(me, me.location, me.health, env.View(), pick))
  {
    ghost var v := env.View();
    label L:
    match me.kind {
      case ReedRichardsKind =>
        var a := ReedActions(me, env);
        acts := Some(a);
        assert unchanged@L(env) && unchanged@L(me);
        ViewKept@L(env);
        assert env.View() == v;
      case HumanTorchKind =>
        var a := TorchActions(me, env);
        acts := Some(a);
        assert unchanged@L(env) && unchanged@L(me);
        ViewKept@L(env);
        assert env.View() == v;
      case GalactusKind =>
        var a := GalactusActions(me, env, pick);
        acts := Some(a);
        assert unchanged@L(env) && unchanged@L(me);
        ViewKept@L(env);
        assert env.View() == v;
      case TheThingKind =>
        acts := Some([]);
      case SilverSurferKind =>
        acts := Some([]);
      case BridgeKind =>
        acts := None;
      case HeadquarterKind =>
        acts := None;
      case FranklinKind =>
        acts := None;
    }
  }

  /** SueStorm.actions on a populated grid: the Franklin it carries keeps a location. */
  method SueTurn(me: Agent, env: Earth) returns (acts: seq<Action>)
    requires env.Valid() && Populated(env) && me.kind == SueStormKind
    requires me.location.Some? && InBounds(me.location.value)
    requires FranklinReady(Adjacent(me.location.value, 1), env.View())
    modifies FranklinNear(me, env)
    ensures env.Valid() && env.grid == old(env.grid) && Populated(env)
    ensures me.location == old(me.location) && me.q == old(me.q)
    ensures acts == SueRules(me, old(me.location.value), Adjacent(old(me.location.value), 1), old(env.View())).0
    ensures CarriedAlong(me, old(me.location.value), old(env.View()))
    ensures env.View() == SueAfter(me, old(me.location.value), old(env.View()))
    ensures forall a | a in old(env.Occupants()) :: a.health == old(a.health) && a.q == old(a.q)
  {
    FranklinNearFacts(me, env);
    ghost var f := LastFranklin(Adjacent(me.location.value, 1), env.View());
    ghost var frame := FranklinNear(me, env);
    assert frame == if f.Some? then {f.value.who} else {};
    assert f.Some? ==> f.value.who.location.Some? by {
      if f.Some? {
        var l :| l in Adjacent(me.location.value, 1) && SeenAt(env.View(), l) == f;
        env.ViewAt(l);
      }
    }
    acts := SueActions(me, env);
    PopulatedKept(env, if f.Some? then f.value.who else me);
  }
}
