# FantasticFour grid world in Dafny

This project models the engine of the FantasticFour simulation. Agents move and fight on a 30 x 30 wrap-around
grid (the Earth): heroes (Reed Richards, Sue Storm, Human Torch, the Thing), villains (Galactus, the Silver
Surfer), four bridges, Franklin and a headquarters. Each tick (`__update`), every agent in the simulator's list
that has a location builds its list of legal actions from what the Earth shows, picks one with its Q-table, and
registers it with the Earth; nothing executes the registered actions. As written, the Python simulator cannot be
built: ReedRichards does not override the abstract `get_state`, so the constructor raises a TypeError at
controller/simulator.py:62, after the bridges are placed, and `__update` never runs. The model follows the
evident intent, in which every class can be instantiated (see "## Left out").

The modules follow the program's structure:

- `Geometry` (`geometry.dfy`) models `Location`: a value `Loc(x, y, range)`. It covers:
  - the toroidal Chebyshev distance `dist`;
  - the (2r+1)^2 window `get_points`, whose nested loops are kept in `GetPoints`;
  - the neighbourhood that `get_adjacent_locations` returns.
- `Entities` (`entities.dfy`) models the agents:
  - the roles and classes, with each class's combat attributes;
  - the action values, with Move identity by target cell;
  - the `Agent` class, whose location, health and Q-table the methods update;
  - health clamping, the Q-learning update, and the greedy and exploring choice of `pick_action`.
- `World` (`earth.dfy`) models the `Earth` class:
  - a grid field of rows of optional agents, with wrapped reads and writes and ranged writes;
  - the action buffer, the fight status and `clear`.
- `Effects` (`actions.dfy`) models `execute` of Move (including the Franklin co-move), Attack, Heal, Repair,
  Protect and Retreat. Each is a method that changes the grid and the agents, and returns the reward.
- Action generation:
  - `Scan` holds the per-cell rule that Reed Richards and Sue Storm share;
  - `ReedRichards`, `HumanTorch` and `SueStorm` hold each hero's `actions` and Sue Storm's discretised `get_state`;
  - `Galactus` holds the cluster search and the one-step pursuit of `__next_location`.
- `Policy` dispatches `actions` and `get_state` on the agent's class, and holds `pick_action`.
- `Simulation` models the `Simulator` class:
  - the fixed initial roster;
  - the first-fit empty-window search;
  - the per-tick `__update`;
  - the episode reset of `run`.

Each operation that works by changing state is a method, proved against a function of the old state. The
properties are proved about those functions: distances, window contents, clamping, the Q-update, rule
membership in both directions, the pursuit step, and the search result.

Every Earth method except `clear` keeps the status as it was. The status therefore stays RUNNING: no code
here changes it.

## Model

| member | source | states |
|---|---|---|
| Geometry.SameCellIgnoresRange | model/location.py:22-24 | Location equality compares x and y only; two locations that differ only in range are equal |
| Geometry.Dist | model/location.py:66-77 | the wrap-around Chebyshev distance never exceeds W div 2, and is non-negative for in-bounds coordinates |
| Geometry.DistSymmetric | model/location.py:66-77 | dist(a, b) == dist(b, a) for all coordinates |
| Geometry.DistSelf | model/location.py:66-77 | dist(a, a) == 0 |
| Geometry.DistZero | model/location.py:66-77 | on in-bounds cells the distance is 0 exactly when x and y coincide |
| Geometry.DistExamples | tests/test_location.py:46-67 | with W = 30, the distances the location tests expect, including the wraps on x, on y and on the diagonal |
| Geometry.DistOfUnreducedCoordinates | model/location.py:71-77 | coordinates outside [0, W) are not reduced: dist((0,0), (45,45)) is -15 |
| Geometry.FirstNearest | model/agents/galactus.py:57 | min(s, key=dist): an index whose element is at least distance from `here`, with every earlier element strictly farther |
| Geometry.GetPoints | model/location.py:80-94 | the two nested while loops build exactly the x-major list of the window's points |
| Geometry.PointsLength | model/location.py:80-94 | get_points returns (2r+1)^2 locations, and none for a negative range |
| Geometry.PointsMember | model/location.py:83-93 | a location is among the points exactly when some pair (count_x, count_y) in range produces it |
| Geometry.PointsInBounds | model/location.py:89 | every point has both coordinates in [0, W) and range 0 |
| Geometry.PointsWithinRange | model/location.py:83-89 | every point lies within toroidal distance r of an in-bounds centre |
| Geometry.PointsDistinct | model/location.py:83-89 | when 2r+1 <= W no point is repeated |
| Geometry.PointsOfRangeZero | model/location.py:87-93 | range 0 yields the single wrapped cell, which for an in-bounds location is that location |
| Geometry.PointsOrder | model/location.py:83-93 | point i*(2r+1)+j is column i, row j of the window that starts at ((x-r) mod W, (y-r) mod W) |
| Geometry.CentreIsPoint | model/location.py:83-89 | the window of an in-bounds location contains the location's own cell |
| Geometry.AdjacentFacts | model/earth.py:131-146 | get_adjacent_locations(l, r) has (2r+1)^2 - 1 cells, all in bounds, without l, each at distance between 1 and r |
| Geometry.AdjacentExamples | tests/test_earth.py:98-118 | (5,5) has 8 neighbours at distance 1, and (10,10) has 24 within range 2 |
| Entities.RoleValueInjective | model/agents/agent.py:19-24 | the AgentRole values tell the five roles apart |
| Entities.MoveKeys | model/actions/move.py:40-50 | two Moves are equal exactly when their targets have the same x and y, whatever the agent or flag |
| Entities.MoveKeyDiffers | model/actions/move.py:50 | a Move never equals an action of another class |
| Entities.EqualMovesHashAlike | model/actions/move.py:52-59 | equal Moves have the same hash |
| Entities.ReducedFacts | model/agents/agent.py:143-152 | reduce_health: health 0 or below becomes 0; positive health drops by p and is clamped at 0; with p >= 0 it never rises |
| Entities.IncreasedFacts | model/agents/agent.py:154-163 | increase_health: health 1 or above becomes 1; lower health rises by p and is clamped at 1; with p >= 0 it never falls |
| Entities.HealthStaysInUnitRange | model/agents/agent.py:143-163 | from health in [0, 1] and a non-negative power, both updates stay in [0, 1] |
| Entities.NegativePowerEscapes | model/agents/agent.py:143-163 | the clamps are one-sided: a negative power takes health out of [0, 1] |
| Entities.BestNext | model/agents/agent.py:60 | the max of Q over the next actions bounds every one of them and is attained; it is 0 for no actions |
| Entities.LearnedMovesTowardTarget | model/agents/agent.py:61-63 | the new Q-value is 0.9*Q + 0.1*(r + 0.9*best), so it lies between the old value and the target |
| Entities.UpdatedTable | model/agents/agent.py:56-63 | the (old_state, action) entry holds the learned value; in the model's table that is the only key that can be new (Python's extra zero entries are under Left out) |
| Entities.UpdateKeepsOtherEntries | model/agents/agent.py:56-63 | update_q changes no entry other than (old_state, action); missing keys still read as 0 |
| Entities.FirstBestIndex | model/agents/agent.py:182 | max(acts, key=Q) picks an action of maximal Q-value, and every earlier action has a strictly smaller one |
| Entities.Choose | model/agents/agent.py:172-182 | None exactly when actions is None; a raise exactly for an empty list; otherwise a member of the list, and on the greedy branch one of maximal Q-value |
| Entities.GreedyPicksFirstBest | model/agents/agent.py:181-182 | the greedy pick is the first action of maximal Q-value |
| Entities.Agent.constructor | model/agents/agent.py:29-42 | health defaults to 1.0 when none is given, and the Q-table starts empty |
| Entities.Agent.SetLocation | model/agents/agent.py:116-123 | the location is replaced, and health and Q-table are kept |
| Entities.Agent.ReduceHealth | model/agents/agent.py:143-152 | health becomes the clamped reduction of ReducedFacts, and nothing else changes |
| Entities.Agent.IncreaseHealth | model/agents/agent.py:154-163 | health becomes the clamped increase of IncreasedFacts, and nothing else changes |
| Entities.Agent.UpdateQ | model/agents/agent.py:56-63 | no change when actions is None; otherwise the table becomes the single-entry update above |
| Entities.SameAgentPlaceIsEquivalence | model/agents/agent.py:75-85 | agent equality, by location alone, is reflexive, symmetric and transitive |
| World.StatusValue | model/earth.py:25-35 | FightStatus values lie in -1..1, and -1 is exactly RUNNING |
| World.EmptyGrid | model/earth.py:54-56 | a W x W grid with every cell None |
| World.PlaceCell | model/earth.py:149-170 | set_agent writes the agent into exactly the cells its location covers; every other cell keeps its occupant, and a None location changes nothing |
| World.CoversIsPoints | model/earth.py:165-170 | for a non-negative range the covered cells are exactly get_points |
| World.PlaceThenRead | model/earth.py:158-162 | after set_agent(a, loc) with range 0, get_agent(loc) is a |
| World.PlaceWraps | model/earth.py:159-162 | writing at (W+1, W+1) reads back at (1, 1) |
| World.PlaceAllDistinctCells | model/earth.py:165-170 | a ranged write fills all (2r+1)^2 in-bounds cells of the window when it fits in the world |
| World.EmptyGridHasNoOccupant | model/earth.py:90-99 | a fresh or cleared grid has no occupant at any location |
| World.ViewMoved | model/earth.py:111-129 | a call that changes no grid cell and no occupant but the location of one agent leaves get_agent showing that agent at its new location in every cell it holds, and every other cell as it was |
| World.Earth.constructor | model/earth.py:45-61 | every cell empty, an empty buffer, status RUNNING |
| World.Earth.GetAgent | model/earth.py:111-129 | None for a None location; otherwise the occupant of the wrapped cell, which stands on the grid |
| World.Earth.GetGrid | model/earth.py:81-88 | the copy agrees cell by cell with get_agent |
| World.Earth.SetAgent | model/earth.py:149-170 | the grid becomes the set_agent write of PlaceCell; buffer, status and surfer flag are kept |
| World.Earth.GetAdjacentLocations | model/earth.py:131-146 | returns the window of range r less the centre, whose facts AdjacentFacts states |
| World.Earth.RegisterAction | model/earth.py:173-182 | appends a non-None action to the buffer, ignores None, and changes nothing else |
| World.Earth.Clear | model/earth.py:90-99 | every cell empty, an empty buffer, status RUNNING |
| World.Earth.SetSurferFlag | model/actions/retreat.py:34 | records the surfer-present flag and its location, and changes nothing else |
| Effects.MoveDir | model/actions/move.py:75 | each offset lies in [0, W), and adding it to the mover's coordinates reaches the target mod W |
| Effects.ExecuteMove | model/actions/move.py:61-84 | the mover (and with the flag, Franklin) is cleared and rewritten; the mover's location becomes the target, Franklin's its shifted location; the health and Q-tables of both, the buffer, the status and the surfer flag are kept; the reward is 0 |
| Effects.MoveCells | model/actions/move.py:72-81 | without the flag, the target's cells hold the mover, its other old cells are empty, and every other cell is unchanged |
| Effects.MoveCellsWithFranklin | model/actions/move.py:69-82 | with the flag, Franklin holds its shifted cell, the mover the rest of the target, both old footprints are otherwise empty, and nothing else changes |
| Effects.FranklinCoordinatesNotWrapped | model/actions/move.py:76-82 | Franklin's new stored coordinates can reach W or more; only the grid write wraps |
| Effects.AttackReward | model/actions/attack.py:35-60 | the reward is 3 for a villain occupant, -3 for any other occupant, and 0 for an empty cell |
| Effects.DamageIgnoresDistance | model/actions/attack.py:40-59 | the damage uses the class's attack_rate, not the adjusted local rate; Galactus takes none |
| Effects.ExecuteAttack | model/actions/attack.py:26-62 | the occupant loses attack_rate x damage_rate (clamped); the attacker pays its ranged and attack costs even at an empty cell; locations and Q-tables are kept; the reward is AttackReward's |
| Effects.HealReward | model/actions/heal.py:38-41 | -3 exactly for a villain actor, 3 for every other actor |
| Effects.ExecuteHeal | model/actions/heal.py:29-41 | the actor's health rises by heal_rate 0.05, clamped; its location and Q-table are kept; the target is ignored |
| Effects.ExecuteRepair | model/actions/repair.py:25-37 | any occupant of the target, whatever its role, is repaired by repair_rate (clamped) with reward 10, its location and Q-table kept; an empty target gives 0 |
| Effects.ExecuteProtect | model/actions/protect.py:25-32 | the reward is 0, and nothing is modified |
| Effects.ExecuteRetreat | model/actions/retreat.py:25-38 | the surfer flag is lowered at the target, the actor's location becomes None (its health and Q-table kept), the target's cells are emptied, and the reward is 0 |
| Effects.RetreatCells | model/actions/retreat.py:36 | after a Retreat the target cell is empty and every other cell is unchanged |
| Scan.ScanRulesMembers | model/agents/reed_richards.py:41-51 | Move on exactly the empty scanned cells; Repair on exactly the bridges below full health; Protect on exactly the bridges |
| Scan.ScanRulesShape | model/agents/reed_richards.py:41-51 | every entry is an unflagged Move, a Repair or a Protect by the agent, on a scanned cell |
| Scan.ScanRulesLength | model/agents/reed_richards.py:41-51 | each scanned cell adds at most two entries |
| Scan.RepairThenProtect | model/agents/reed_richards.py:48-51 | each Repair is followed at once by the Protect on the same cell |
| Scan.ScanMovesPerVacantCell | model/agents/reed_richards.py:44-45 | there is one Move per empty scanned cell |
| ReedRichards.NewReedRichards | model/agents/reed_richards.py:21-25 | a hero with health 1.0, repair_rate 0.2, scan_range 3 and damage_rate 1.0 |
| ReedRichards.ReedActions | model/agents/reed_richards.py:37-53 | the list follows the shared scan rule over the eight cells at distance 1 |
| ReedRichards.ScanCells | model/agents/reed_richards.py:41-51 | the loop builds the shared scan rule's list, cell by cell |
| ReedRichards.ReedActionFacts | model/agents/reed_richards.py:37-53 | Move for exactly the empty neighbours, Repair for exactly the damaged bridges, Protect for every bridge; at most 16 entries; one Move per empty neighbour; Repair directly before its Protect |
| ReedRichards.ReedIgnoresFartherCells | model/agents/reed_richards.py:24-37 | no cell at a distance other than 1 is a target: the scan_range of 3 is unused |
| HumanTorch.NewHumanTorch | model/agents/human_torch.py:24-32 | a hero with health 1.0 and the Torch's repair, scan, attack, ranged and damage attributes |
| HumanTorch.TorchActions | model/agents/human_torch.py:41-71 | the list is the Torch's rule over the distance-1 cells for moves and the radius-5 cells for the rest |
| HumanTorch.MovesIntoVacant | model/agents/human_torch.py:45-49 | the first loop adds a Move into each empty cell, in order |
| HumanTorch.ScanForTargets | model/agents/human_torch.py:52-69 | the second loop adds each scanned cell's Heal, Repair, Protect or Attack entries, in order |
| HumanTorch.TorchMovesMembers | model/agents/human_torch.py:45-49 | the moves are unflagged Moves by the Torch onto exactly the empty cells |
| HumanTorch.TorchScanMembers | model/agents/human_torch.py:52-69 | every scan entry is one that its cell calls for, and every cell that calls for an entry gets it |
| HumanTorch.TorchMembers | model/agents/human_torch.py:41-71 | Moves exactly into empty neighbours; with health > 0, Heal on its own cell exactly when a Headquarters is in range, Repair/Protect exactly on damaged/all bridges, Attack exactly on living villains |
| HumanTorch.TorchMovesFirst | model/agents/human_torch.py:45-69 | every Move precedes every other action, and with health <= 0 only Moves are offered |
| HumanTorch.TorchIgnoresHeroes | model/agents/human_torch.py:55-69 | a hero or Franklin in range is the target of no action |
| SueStorm.NewSueStorm | model/agents/sue_storm.py:23-28 | a hero with health 1.0, repair_rate 0.2, scan_range 1 and damage_rate 1.0 |
| SueStorm.RegionBounds | model/agents/sue_storm.py:33-36 | the region id of an in-bounds cell lies in [0, 36) |
| SueStorm.DistanceBin | model/agents/sue_storm.py:42-44 | bin 0 exactly for d <= 2, 1 exactly for 2 < d <= 6, otherwise 2 |
| SueStorm.HealthBin | model/agents/sue_storm.py:49-51 | bin 0 exactly for h <= 0.2, 1 exactly for 0.2 < h <= 0.6, otherwise 2 |
| SueStorm.NearestIndex | model/agents/sue_storm.py:40-47 | the bridge min(dist_from_bridge, key=...) returns: at least distance, and first in grid order among those |
| SueStorm.MinDist | model/agents/sue_storm.py:53-55 | the least distance to the listed agents, attained by one of them, or 0 for none |
| SueStorm.SueStateRanges | model/agents/sue_storm.py:30-61 | the state key has region in [0, 36) and each of the three bins in {0, 1, 2} |
| SueStorm.SueIsHerOwnNearestEnemy | model/agents/sue_storm.py:53-59 | the enemy list holds the HERO role, so any HERO-role occupant located on Sue's cell (the grid's Sue object need not be the one asking) gives enemy bin 0 |
| SueStorm.NoEnemyMeansBinZero | model/agents/sue_storm.py:55-57 | with no hero on the grid the enemy distance is 0, bin 0 |
| SueStorm.LastFranklin | model/agents/sue_storm.py:76-81 | the Franklin seen last in scan order, or none exactly when no scanned cell holds one |
| SueStorm.SueActions | model/agents/sue_storm.py:65-109 | the list is Sue's rule on the view at the call; Franklin's location ends shifted by the co-move loop when a neighbour is empty, and is otherwise kept (together, `CarriedAlong`: it ends where `CarriedTo` puts it); Franklin's health and Q-table and the grid are unchanged; the view afterwards is `SueAfter` of the view at the call: that Franklin shown where Sue's rule leaves it, every other cell as it was |
| SueStorm.CarriedToRules | model/agents/sue_storm.py:93-106 | for a Franklin seen with a location, where `CarriedTo` puts it is the location Sue's rule reports: with no empty neighbour the co-move loop never shifts it |
| SueStorm.ScanNeighbours | model/agents/sue_storm.py:76-89 | the first loop builds the shared scan rule's list, and notes the last Franklin seen |
| SueStorm.CoMoveScan | model/agents/sue_storm.py:93-106 | the second loop builds the flagged Moves, and shifts Franklin's location in place when some neighbour is empty, keeping its health and Q-table |
| SueStorm.CoMovesDrift | model/agents/sue_storm.py:98-103 | the shift accumulates: Franklin's final location is its old one plus the offsets to every empty neighbour, and its range is kept |
| SueStorm.CoMovesShape | model/agents/sue_storm.py:93-106 | only flagged Moves by Sue onto empty scanned cells, at most one per empty cell |
| SueStorm.SueBarrierFacts | model/agents/sue_storm.py:76-91 | the list starts with the shared scan rule's entries, then the range-3 barrier on her own cell; with no Franklin in range the barrier is last |
| SueStorm.SueCoMoveFacts | model/agents/sue_storm.py:70-109 | every entry is Sue's; flagged Moves appear only with a Franklin beside her, each onto an empty neighbour |
| Galactus.NewGalactus | model/agents/galactus.py:20-23 | a villain with health 1.0, attack_rate 1.0 and damage_rate 0.0 |
| Galactus.CombosNonEmpty | model/agents/galactus.py:45 | combinations(xs, k) is non-empty exactly when k <= len(xs) |
| Galactus.CombosMember | model/agents/galactus.py:45 | every combination has k elements, each drawn from xs no more often than it occurs |
| Galactus.CombosCount | model/agents/galactus.py:45 | there are C(n, k) combinations |
| Galactus.CombosOrder | model/agents/galactus.py:45 | on three bridges, combinations of size 2 and 3 come in itertools order |
| Galactus.CombosOfTwo | model/agents/galactus.py:48 | the pairs and singletons of two cells, and none of size 3 |
| Galactus.CombosOfOne | model/agents/galactus.py:48 | one cell gives the empty and the one-cell combination, and none larger |
| Galactus.PairSumSmall | model/agents/galactus.py:47-49 | a single bridge has pairwise sum 0; two bridges have their distance |
| Galactus.BestOf | model/agents/galactus.py:51-54 | a cluster is chosen exactly when there are candidates, and it is one of them |
| Galactus.BestOfIsLeast | model/agents/galactus.py:51-54 | no candidate has a key (-size, dsum) smaller than the chosen cluster's |
| Galactus.BestOfIsFirst | model/agents/galactus.py:51-54 | every candidate before the chosen one has a strictly larger key |
| Galactus.CandidatesMember | model/agents/galactus.py:44-45 | the loops visit exactly the combinations of sizes 1 up to the bound |
| Galactus.BestClusterExists | model/agents/galactus.py:41-54 | with a bridge there is a cluster of one to four of the bridges |
| Galactus.BestClusterFacts | model/agents/galactus.py:44-54 | the cluster has min(n, 4) bridges and the least pairwise-distance sum among combinations of that size |
| Galactus.ClusterDistSum | model/agents/galactus.py:47-49 | the loop computes the total pairwise distance of the combination |
| Galactus.BestCluster | model/agents/galactus.py:41-54 | the nested loops settle on the cluster BestOf chooses |
| Galactus.RankCombos | model/agents/galactus.py:45-54 | the inner loop keeps the best-so-far cluster and its key over one size's combinations |
| Galactus.PursuitTarget | model/agents/galactus.py:57-65 | the target is Franklin or a cluster bridge; a bridge only if no farther than Franklin; Franklin whenever strictly closer than every bridge |
| Galactus.Wrapped | model/agents/galactus.py:73-78 | the signed difference lies in (-W/2, W/2] and is congruent to t - a mod W |
| Galactus.StepStaysNear | model/agents/galactus.py:80-87 | the next cell is an in-bounds cell of range 0 within distance 1 of the current cell |
| Galactus.StepCloser | model/agents/galactus.py:67-87 | unless Galactus is on the target, the step brings it exactly one closer |
| Galactus.PursueFacts | model/agents/galactus.py:28-87 | __next_location returns an in-bounds cell within distance 1, one closer to the pursuit target |
| Galactus.NextLocation | model/agents/galactus.py:28-87 | the method, with its loops, returns the pursuit step |
| Galactus.Step | model/agents/galactus.py:68-87 | the wrapped differences, their signs and the new coordinates give the step toward the target |
| Galactus.GalactusActions | model/agents/galactus.py:90-101 | one Move with Galactus's own range: the pursuit step when Franklin is on the grid, the drawn neighbour otherwise |
| Galactus.GalactusNextFacts | model/agents/galactus.py:93-101 | the next cell is in bounds, at most one step away, a true neighbour without Franklin, and one closer to the target with Franklin |
| Galactus.NeighbourFacts | model/agents/galactus.py:96 | the neighbour drawn in place of random.choice is an in-bounds cell at distance 1 |
| Galactus.StepExamples | tests/test_galactus.py:32-44 | the step from (10,10) toward (8,8) is (9,9), and steps wrap at the edge |
| Galactus.PursuitExample | tests/test_galactus.py:32-44 | with the test's bridges and Franklin at (8,8), Galactus at (10,10) steps to (9,9) |
| Policy.Available | model/agents/the_thing.py:28-39 | the per-class actions() that pick_action calls (agent.py:172; the cited lines are TheThing's, the others are in each agent's file): None exactly for Bridge, Headquarter and Franklin; TheThing and SilverSurfer give an empty list; Sue's list is never empty; Galactus's has one entry |
| Policy.GetState | model/agents/bridge.py:19-20 | Bridge and Headquarter report their coordinates, Sue her bins, and every other class None |
| Policy.PickOutcomes | model/agents/agent.py:165-182 | pick_action is None exactly for the classes without actions, raises for TheThing and SilverSurfer, and always picks for Sue and Galactus |
| Policy.PickAction | model/agents/agent.py:165-182 | `PicksOn`: the pick is None when actions(), read on the view at the call, is None, and otherwise the Q-table choice over that list under get_state read on the view actions() left; the grid, the agent's own location and every occupant's health and Q-table are kept; for SueStorm (`CarriedAlong`), the Franklin she saw ends where `CarriedTo` puts it, and the view left is `SueAfter` of the view at the call |
| Policy.ActionsOf | model/agents/agent.py:172 | actions() of every class but SueStorm, which changes nothing |
| Policy.SueTurn | model/agents/sue_storm.py:65-109 | Sue's actions on a populated grid: the rule's list; the Franklin she saw ends where `CarriedTo` puts it (`CarriedAlong`) and the view left is `SueAfter` of the view at the call; every occupant keeps its health and Q-table; the grid is unchanged and still populated |
| Simulation.FindEmptyFirstFit | controller/simulator.py:88-103 | a result is centred at ((x+r) mod n, (y+r) mod n) with range r, for an all-empty window that every earlier window in row-major order fails |
| Simulation.FindEmptyNone | controller/simulator.py:88-105 | None is returned exactly when every window holds an occupant |
| Simulation.FindEmptyOnEmptyGrid | controller/simulator.py:88-103 | on an empty grid the result is (r, r) wrapped, with range r |
| Simulation.FoundWindowIsEmpty | controller/simulator.py:81-103 | every get_points cell of a found location is empty |
| Simulation.RosterFacts | controller/simulator.py:52-78 | the ten roster cells are in bounds and distinct, and exactly the first four hold bridges |
| Simulation.RegisteredExactly | controller/simulator.py:166-172 | each registered action comes from a pick, and every pick is registered |
| Simulation.Simulator.constructor | controller/simulator.py:26-35 | step 0, a fresh Earth, and the roster on an empty grid |
| Simulation.Simulator.RosterPopulates | controller/simulator.py:46-78 | the roster leaves every occupant located, a bridge on the grid, and every acting agent in bounds |
| Simulation.Simulator.GenerateInitialPopulation | controller/simulator.py:46-78 | ten agents appended and placed: the bridges (health 0.8) as the same objects, the others as separate instances; other cells kept |
| Simulation.Simulator.PlaceBridges | controller/simulator.py:52-59 | the four bridges are appended and placed as the same objects |
| Simulation.Simulator.AddNext | controller/simulator.py:62-78 | one roster agent is appended, and a second instance placed at its cell |
| Simulation.Simulator.FindEmptyLocations | controller/simulator.py:81-105 | the four nested loops return the first-fit result whose facts the lemmas above state |
| Simulation.Simulator.ResetIfOver | controller/simulator.py:147-152 | on WON or LOST: cleared grid, new roster, next episode, step 0; on RUNNING nothing changes |
| Simulation.Simulator.Update | controller/simulator.py:164-176 | skips agents without a location; registers every other agent's pick in order; returns one view per turn, the first the Earth at the call and the last the Earth at the end, and each pick j is `TurnPicksOn` views j and j+1: pick_action's result for agent j with its location, health and Q-table as the tick began, where only SueStorm's turn changes the view, to `SueAfter` of view j (the Franklin she saw shown where her rule leaves it, every other cell as it was); writes only the simulator, the Earth and the Franklins on the grid, so no other agent moves; keeps grid and agents; no occupant's health or Q-table changes (update changes no health); calls the empty execute_actions and increments the step once, unless a pick raised |
| Simulation.Simulator.PickAll | controller/simulator.py:166-172 | the loop registers each pick in order; each agent's outcome matches its class and location; the picks are `PicksAll` the views, which start at the Earth at the call and end at the Earth at the end, each turn's pick `PicksOn` its two views, and each view after the one before unchanged, or `SueAfter` of it for SueStorm; writes only the Earth and the Franklins on the grid; every occupant keeps its health and Q-table |
| Simulation.Simulator.Turn | controller/simulator.py:166-172 | one agent's pick and its registration: with a location the pick is `PicksOn` the view the turn found and the view it left; for SueStorm the Franklin she saw ends where `CarriedTo` puts it and the view left is `SueAfter` of the view found, and for every other class the view is unchanged; writes only the Earth and the Franklins on the grid, so no other agent moves; every occupant keeps its health and Q-table |
| Simulation.Simulator.TakeTurn | controller/simulator.py:168-171 | skipped exactly without a location, otherwise the pick outcome its class determines, and the pick is `PicksOn` the view the turn found and the view it left; for SueStorm the Franklin she saw ends where `CarriedTo` puts it and the view left is `SueAfter` of the view found, and for every other class the view is unchanged; every occupant other than a Franklin keeps its location, and every occupant its health and Q-table |
| Simulation.PicksAllEach | controller/simulator.py:166-172 | picks built turn by turn give, for every j, agent j's pick on views j and j+1 |

## Left out

- Location is a value: `set_x`, `set_y` and `set_range` become record updates. Sue Storm's in-place change of
  Franklin's location is kept as a reassignment of Franklin's `location` field.
- Floating point: health, rates and Q-values are `real`. No rounding is modelled.
- Randomness becomes parameters:
  - `pick_action`'s draw against epsilon and `random.choice`'s index become `explore`;
  - Galactus's random neighbour becomes `pick` (modulo the number of neighbours).
- `Earth.execute_actions` has no body, so nothing resolves the registered actions. `Update` calls it, as the
  source does, when no pick raised, before it increments the step counter; the call changes nothing.
- `get_status` is a read of the `status` field.
- The `Environment` base class is not part of this model. Width and height are W = 30.
- `save_q`, `load_q` and the Q-table file path are file I/O. The Q-table starts empty.
- `defaultdict(float)` becomes a map whose missing keys read as 0. Reading a missing key in Python inserts a
  zero entry (the `max` over next actions in update_q and the greedy `max` in pick_action do so); the model
  does not insert it. Every lookup gives the same value either way, but the model's key set is smaller.
- Entities.Agent.UpdateQ: it takes what `actions(env)` returned as a parameter. For SueStorm each of update_q's
  two `actions(env)` calls also moves the Franklin beside her, and that drift is not modelled here.
- Q-keys: a Move is keyed by its target cell, as its `__eq__` and `__hash__` say. Other actions, which Python
  compares by identity, are keyed by value.
- `__str__`, `__repr__` and the hash of Agent and Location are formatting only.
- The abstract `get_state` that ReedRichards, HumanTorch, TheThing and SilverSurfer never override gives
  the no-state key. In Python such a class cannot be instantiated: `Simulator()` raises a TypeError at
  controller/simulator.py:62, the first `ReedRichards(...)` call, after the four bridges are placed, so
  `__update` never runs as written. These members model the intended behaviour, in which the classes can
  be instantiated:
  - ReedRichards.NewReedRichards: Python raises a TypeError here.
  - HumanTorch.NewHumanTorch: Python raises a TypeError here.
  - Simulation.Simulator.constructor: Python raises a TypeError once the bridges are placed.
  - Simulation.Simulator.GenerateInitialPopulation: Python stops with a TypeError after the bridges.
  - Simulation.Simulator.AddNext: the TheThing, ReedRichards and HumanTorch entries raise a TypeError in Python.
- Retreat calls `set_ss_flag`, which Earth lacks. It is modelled as the two fields `SetSurferFlag` writes.
- `run` itself is left out:
  - it passes the undefined `state_dict` and `action_dict`;
  - its loop, the step counter and the print are left out;
  - the GUI check, `__add_silver_surfer`, `__add_galactus` and their intro steps are left out.
- The episode reset in `run` is modelled as `ResetIfOver`. It takes and returns the episode and step counts,
  which are locals of `run`.
- `main.py` and `view/gui.py` (entry point and Tkinter rendering) are left out.
- get_grid's shallow copy shares its rows with the grid. The model returns the grid value, so no aliasing.
- Attack's adjusted local `attack_rate` (close-attack override and ranged decay) is dead. The model omits it,
  and `DamageIgnoresDistance` states that it never reaches the damage.
- Python crashes the model excludes by preconditions rather than modelling:
  - `list.remove` of a centre that is not in the window;
  - `min` of an empty bridge list;
  - a missing attribute;
  - reading the location of a Franklin without one (`FranklinReady`, `GalactusReady`, `StateDefined`, `ActionsDefined`);
  - a flagged Move with no Franklin on the grid, or one without a location (the `IndexError` or missing
    attribute in Move.execute; `ExecuteMove` requires a located Franklin).
- Update: a pick on an empty action list (TheThing and SilverSurfer) raises in Python. The model ends the
  tick there with `crashed`, without incrementing the step.
- Simulation.Simulator.GenerateInitialPopulation: freshness of the new agent objects is not stated. Only their
  identity relations (the same object for bridges, separate objects for the rest) are.
- Several single source methods are split into helper methods, one per loop: ScanCells, ScanNeighbours,
  MovesIntoVacant, ScanForTargets, CoMoveScan, RankCombos, Step, ActionsOf, SueTurn, PlaceBridges, AddNext,
  PickAll, PickNext, Turn and TakeTurn. ShiftCells holds the grid half of Move.execute. Register and Advance
  hold the register_action and execute_actions calls of `__update`.
- Update, PickAll and Turn state which other agents keep their location through their `modifies` clauses: they
  write only the Earth and `FranklinsOn(earth)`, the Franklin-class agents on the grid.
