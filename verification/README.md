# Cooperative multi-agent path finding: a Dafny model

This project models the core of a multi-agent path-finding toolkit.

- **Planner.** The prioritized ("cooperative") planner plans the agents one
  after another on a 4-connected grid over time. Each agent's search sees the
  paths committed before it as moving obstacles, in a reservation table.
- **Search.** The uniform-cost (Dijkstra) single-agent search the planner
  runs.
- **Benchmark generator.** Warehouse maps: blocks of shelves separated by
  one-cell aisles, with a free border on which agents start.
- **Movement counter.** It sums how often the agents of a schedule change
  cell.

The modules follow the source files:

| module | file | form |
|---|---|---|
| `Wrappers` | shared | `Option`, `Result`, `Last`, `Distinct` and small sequence facts |
| `StateModel` | `centralized/coop_astar/coop_astar.py` | `Location`, `State`, `Transition` as datatypes |
| `CoopEnv` | `centralized/coop_astar/coop_astar.py` | `state_valid`, `transition_valid`, `get_neighbors`, `is_at_goal` as functions of one search's environment |
| `Reservations` | `centralized/coop_astar/coop_astar.py` | the reservation table as a function of the committed paths; what every committed path keeps clear of earlier ones |
| `Dijkstra` | `centralized/cbs/dijkstra.py` | `search` and `reconstruct_path` as methods with loops, over maps and sets |
| `CoopPlanner` | `centralized/coop_astar/coop_astar.py` | class `CoopAStar`, whose methods update the reservation table in place |
| `WarehouseGen` | `centralized/benchmark/warehouse_gen.py` | `make_map`, `generate_goals`, `place_agents` as loop methods proved against list functions |
| `MovementCount` | `centralized/sipp/count.py` | `count_agent_movements` (its loops) and `total_movements` |
| `StartAtGoal` | `centralized/coop_astar/coop_astar.py`, `centralized/cbs/dijkstra.py` | the instance behind the first finding below |
| `GoalHorizon` | `centralized/coop_astar/coop_astar.py` | the instance behind the second finding below |

## How the planner is modelled

- **The reservation table.** The planner keeps these fields:
  - `agent_obstacles`, which holds both states and transitions;
  - `end_obstacles`;
  - `max_t`.

  `CoopPlanner.CoopAStar` keeps them as fields, and the methods that change
  them state their new values. Beside them is a ghost list `committed` of the
  paths committed so far. The class invariant says each field equals a
  function of `committed`: `StatesOf`, `TransitionsOf`, `EndsOf`, `Horizon`.
  It also says `committed` is `Separated`: every path yields to every path
  committed before it.
- **Yielding.** A later path yields to an earlier one when all of these hold:
  - it takes none of the earlier path's states after its own start;
  - it never reverses one of the earlier path's moves;
  - it reaches the earlier agent's final cell only before that agent parks
    there;
  - once parked at its own goal, it is not crossed by the earlier path up to
    and including the horizon it was planned with.
- **What follows.** `Reservations.CommitKeepsSeparated` proves that committing
  a path the search admitted keeps the invariant. `Reservations.CollisionFree`
  and `Reservations.NoHeadOnSwap` turn the invariant into the planner's safety
  promise: no two agents share a cell at the same time after time 0, and no
  two agents swap cells in one step. `Reservations.FinalCellsDistinct` shows
  that no two agents of a separated plan end in the same cell.
- **Goal test.** The single-agent search uses `CoopEnv.GoalAccepted`: at the
  goal, and with the goal look-ahead of `state_valid` passed. For every state
  the search generates, this equals the source's `is_at_goal`
  (`CoopEnv.GoalTestOnlyDiffersAtStart`). It differs on the start state only.
  The first finding below shows why the difference matters.
- **Goal look-ahead.** The look-ahead of `state_valid` checks the goal cell's
  reservations from the state's time up to and including `max_t`. The source
  stops one step before `max_t`; the second finding below shows what that
  lets through.
- **A failed search.** When an agent's search returns nothing, the planner
  stops. The model states why the search returned nothing: either no walk of
  the search reaches an accepted goal (`NoPath`), or the expansion budget
  `fuel` ran out (`OutOfFuel`). In the second case, `fuel` distinct states
  were expanded, and none of them is an accepted goal. Each was reached by a
  walk of at most some `layer` states, while every walk to an accepted goal
  has at least `layer` states. So the search expanded nearest first and gave
  up with no goal nearer than what it had expanded. `CoopEnv.SearchFails`
  names this. `CoopEnv.NearGoalIsNoFailure` shows that it excludes a goal one
  step away when more states than that are expanded.

## Model

| member | source | states |
|---|---|---|
| StateModel.Transition.Reverse | centralized/coop_astar/coop_astar.py:52-54 | the reverse goes from the second location to the first over the same pair of times, and is again one time step long |
| StateModel.NewTransition | centralized/coop_astar/coop_astar.py:40-45 | construction succeeds exactly when the second state is one step later than the first, and then keeps both states; otherwise it fails with an invalid-transition error naming them |
| StateModel.ReverseInvolution | centralized/coop_astar/coop_astar.py:52-54 | reversing a transition twice gives it back |
| StateModel.ReverseFixedIffWait | centralized/coop_astar/coop_astar.py:52-54 | a transition is its own reverse exactly when it is a wait |
| StateModel.Records | centralized/coop_astar/coop_astar.py:153-156 | definition of the comprehension: one `{t, x, y}` record per state, in path order, each carrying that state's time and cell; `CoopPlanner.PlannedRecordsTimeIndexed` states what it gives for a committed path |
| CoopEnv.StateValid | centralized/coop_astar/coop_astar.py:103-117 | definition of `state_valid`: in bounds, not a static obstacle, not a reserved state, not at or after the time an agent parked on the cell, and at the current agent's goal no reservation of the cell in [time, `max_t`]. The horizon is included, which corrects the source's range (second finding); `CoopAStar.StateValidCheck` is proved to compute it, and `CoopEnv.NeighborStep` to hold of every successor |
| CoopEnv.TransitionValid | centralized/coop_astar/coop_astar.py:119-120 | definition of `transition_valid`: the reversed move is not a reserved transition; its consequence, that no two agents swap cells, is `Reservations.NoHeadOnSwap` |
| CoopEnv.Neighbors | centralized/coop_astar/coop_astar.py:72-95 | definition of `get_neighbors` as the admissible candidates in the order wait, up, down, left, right; its contents are stated by `CoopEnv.NeighborsCharacterized` and `CoopEnv.FilterAdmissibleSplits`, and `CoopAStar.GetNeighbors` is proved to return it |
| CoopEnv.AtGoal | centralized/coop_astar/coop_astar.py:126-128 | definition of `is_at_goal`: the location equals the goal's, whatever the time; `StartAtGoal.AsWrittenSearch` uses it as written |
| CoopEnv.GoalAccepted | centralized/coop_astar/coop_astar.py:110-128 | definition of the corrected goal test: `is_at_goal` plus the goal look-ahead over [time, `max_t`], the horizon included (both findings); `CoopEnv.GoalTestOnlyDiffersAtStart` proves it equals `is_at_goal` on every successor |
| CoopEnv.Apply | centralized/coop_astar/coop_astar.py:75-92 | definition of the five candidate states, each one time step after the state; their checks are stated by `CoopEnv.NeighborStep` |
| CoopEnv.FilterAdmissible | centralized/coop_astar/coop_astar.py:72-95 | definition of the filter, in candidate order; `CoopEnv.FilterAdmissibleMembers` and `CoopEnv.FilterAdmissibleSplits` state what it keeps |
| CoopEnv.FilterAdmissibleMembers | centralized/coop_astar/coop_astar.py:72-95 | a state is kept exactly when some listed action produces it and passes the checks |
| CoopEnv.FilterAdmissibleAppend | centralized/coop_astar/coop_astar.py:72-95 | candidates are checked independently: filtering two action lists one after the other equals filtering their concatenation |
| CoopEnv.FilterAdmissibleSplits | centralized/coop_astar/coop_astar.py:72-95 | the successors are the five blocks wait, up, down, left, right, each kept or dropped on its own, in that order |
| CoopEnv.NeighborsCharacterized | centralized/coop_astar/coop_astar.py:72-95 | a state is a successor exactly when some action produces it and it passes `state_valid` and, for a move, `transition_valid` |
| CoopEnv.NeighborStep | centralized/coop_astar/coop_astar.py:72-120 | each successor is one step later and at most one cell away; it is in bounds, not an obstacle, not reserved, not behind a parked agent, and does not break the goal look-ahead; a move does not reverse a reserved transition |
| CoopEnv.NearGoalIsNoFailure | centralized/coop_astar/coop_astar.py:141-143 | on a 2 × 1 grid whose goal is one step from the start, a search with three expansions cannot fail: a failure is never claimed with a goal nearer than the states expanded |
| CoopEnv.GoalTestOnlyDiffersAtStart | centralized/coop_astar/coop_astar.py:103-128 | on every generated successor, the goal test with the look-ahead agrees with `is_at_goal` |
| Reservations.UnitStepsIntro | centralized/coop_astar/coop_astar.py:72-95 | a path whose every step moves at most one cell satisfies the unit-step predicate |
| Reservations.UnitStepsAt | centralized/coop_astar/coop_astar.py:72-95 | in a unit-step path, each step moves at most one cell |
| Reservations.PathStatesExtend | centralized/coop_astar/coop_astar.py:145-146 | reserving one more state of a path adds exactly that state |
| Reservations.PathTransitionsExtend | centralized/coop_astar/coop_astar.py:147-148 | reserving one more state adds exactly the transition into it |
| Reservations.PathTransitionsMembers | centralized/coop_astar/coop_astar.py:145-148 | the reserved transitions of a path are exactly its consecutive steps |
| Reservations.Horizon | centralized/coop_astar/coop_astar.py:150 | definition of `max_t` after the commits, starting from 0; `Reservations.HorizonBounds` states that it bounds every committed final time |
| Reservations.InStatesOf | centralized/coop_astar/coop_astar.py:145-146 | every state of a committed path is in `agent_obstacles` |
| Reservations.InTransitionsOf | centralized/coop_astar/coop_astar.py:147-148 | every step of a committed path is in `agent_obstacles` |
| Reservations.InEndsOf | centralized/coop_astar/coop_astar.py:149 | the last state of every committed path is in `end_obstacles` |
| Reservations.HorizonBounds | centralized/coop_astar/coop_astar.py:150 | `max_t` is at least the final time of every committed path |
| Reservations.CommitGrowsTable | centralized/coop_astar/coop_astar.py:145-150 | committing a path adds its states, its steps and its last state, and raises `max_t` to its final time when that is larger |
| Reservations.YieldsToAllAt | centralized/coop_astar/coop_astar.py:103-120 | a path that yields to a list of paths yields to each of them |
| Reservations.YieldsToAllIntro | centralized/coop_astar/coop_astar.py:103-120 | a path that yields to each path of a list yields to the list |
| Reservations.SeparatedPlanned | centralized/coop_astar/coop_astar.py:137-150 | every path of a separated plan starts at time 0, advances one step at a time, and moves at most one cell per step |
| Reservations.SeparatedPair | centralized/coop_astar/coop_astar.py:137-150 | in a separated plan, each later path yields to each earlier one, with the horizon in force when it was planned |
| Reservations.AdmissibleAt | centralized/coop_astar/coop_astar.py:72-120 | each step of a path the search admitted passed its checks |
| Reservations.AdmissibleIntro | centralized/coop_astar/coop_astar.py:72-120 | a path whose every step passed the checks is admitted |
| Reservations.CommitYieldsStates | centralized/coop_astar/coop_astar.py:116 | an admitted path takes no state of any committed path after its start |
| Reservations.CommitYieldsTransitions | centralized/coop_astar/coop_astar.py:119-120 | an admitted path never reverses a step of a committed path |
| Reservations.CommitYieldsParked | centralized/coop_astar/coop_astar.py:106-109 | an admitted path reaches a committed path's final cell only before that agent has parked there |
| Reservations.CommitYieldsGoal | centralized/coop_astar/coop_astar.py:110-113 | once an accepted path parks at its goal, no committed path passes that cell up to and including `max_t` (the source stops before `max_t`; see the second finding) |
| Reservations.CommitKeepsSeparated | centralized/coop_astar/coop_astar.py:137-150 | committing a path that the search admitted against the current table, and that ends at an accepted goal, keeps every pair of paths separated |
| Reservations.VertexCollisionFreeOrdered | centralized/coop_astar/coop_astar.py:103-120 | for an earlier and a later path of a separated plan, the agents never share a cell after time 0, counting a finished agent as staying put |
| Reservations.CollisionFree | centralized/coop_astar/coop_astar.py:137-150 | no two agents of a separated plan are in one cell at the same time after time 0, counting a finished agent as staying put |
| Reservations.FinalCellsDistinct | centralized/coop_astar/coop_astar.py:106-113 | no two agents of a separated plan end in the same cell |
| Reservations.NoHeadOnSwap | centralized/coop_astar/coop_astar.py:119-120 | no two agents of a separated plan swap cells in one time step |
| Dijkstra.Reverse | centralized/cbs/dijkstra.py:38 | the reversal has the same length, with element i taken from position length-1-i |
| Dijkstra.WalkPrefix | centralized/cbs/dijkstra.py:24-29 | every non-empty prefix of a walk from the start is a walk from the start |
| Dijkstra.UndiscoveredIsFar | centralized/cbs/dijkstra.py:13-29 | a walk to a state not yet discovered is longer than any lower bound on the costs of the open states, such as the cost of the state about to be expanded |
| Dijkstra.ExhaustedCoversWalks | centralized/cbs/dijkstra.py:13-31 | once the open set is empty, every walk from the start ends at a discovered state |
| Dijkstra.MinByCost | centralized/cbs/dijkstra.py:15 | the chosen state is open and no open state has a lower cost |
| Dijkstra.ReconstructPath | centralized/cbs/dijkstra.py:33-39 | the path ends at the given state and starts at a state without a predecessor; each state's predecessor is the state before it; its length is fixed by the costs at its two ends |
| Dijkstra.TreeReachable | centralized/cbs/dijkstra.py:26-28 | every state with a recorded cost is reachable from the start along `came_from` links, by a walk of at most cost + 1 states |
| Dijkstra.GoalWalksReachLayer | centralized/cbs/dijkstra.py:13-29 | expansion goes cheapest first: every walk to a goal, open or undiscovered, has more states than the cost of the state expanded last |
| Dijkstra.Search | centralized/cbs/dijkstra.py:5-31 | a found path is a walk from the start to a goal, and no walk to a goal is shorter; `NoPath` only when no walk reaches a goal; `OutOfFuel` only after `fuel` expansions, whose `fuel` distinct states are none a goal and each reachable within `layer` states, while every walk to a goal has at least `layer` states; a goal start is returned alone |
| Dijkstra.ExpandState | centralized/cbs/dijkstra.py:21-29 | expanding the cheapest non-goal open state keeps these: the predecessor tree, the cost layers, the fact that closed states are not goals and have all their successors discovered, and costs that are lower bounds on walk lengths |
| Dijkstra.RecordSuccessor | centralized/cbs/dijkstra.py:26-29 | recording a newly discovered successor keeps the expansion invariant |
| Dijkstra.RecordKeepsTree | centralized/cbs/dijkstra.py:27-28 | recording a successor keeps predecessor links along successor edges, one cost unit each |
| Dijkstra.RecordKeepsLayers | centralized/cbs/dijkstra.py:27-29 | recording a successor at cost c + 1 keeps the open states between c and c + 1 and the closed states at most c |
| Dijkstra.RecordKeepsLowerBounds | centralized/cbs/dijkstra.py:25-27 | recording a successor at cost c + 1 keeps every recorded cost a lower bound on walk lengths |
| Dijkstra.FoundIsShortest | centralized/cbs/dijkstra.py:18-39 | the path rebuilt at the first goal popped is a walk to that goal, and no walk to any goal is shorter |
| CoopPlanner.AgentDictKeys | centralized/coop_astar/coop_astar.py:130-135 | the keys of `agent_dict` are the agents' names; its key order lists each key exactly once |
| CoopPlanner.AgentDictLastWins | centralized/coop_astar/coop_astar.py:130-135 | for a repeated name, the last agent of that name supplies the entry |
| CoopPlanner.AgentDictAtTimeZero | centralized/coop_astar/coop_astar.py:132-133 | every start and goal state in `agent_dict` is at time 0 |
| CoopPlanner.DistinctNamesKeepListOrder | centralized/coop_astar/coop_astar.py:130-139 | with distinct names, agents are planned in the order of the list |
| CoopPlanner.CostIsSumOfArrivals | centralized/coop_astar/coop_astar.py:159-160 | for time-indexed plans, the cost equals the sum of arrival times plus one per agent |
| CoopPlanner.PlannedRecordsTimeIndexed | centralized/coop_astar/coop_astar.py:153-156 | the records of a committed path carry times 0, 1, 2, … |
| CoopPlanner.TimesFromZero | centralized/coop_astar/coop_astar.py:72-95 | a walk from a time-0 start that advances one step at a time has state k at time k |
| CoopPlanner.WalkIsPlannedAndAdmissible | centralized/coop_astar/coop_astar.py:72-120 | every walk of the search from a time-0 start is time-indexed, moves at most one cell per step, and passed every check |
| CoopPlanner.WalkBridge | centralized/coop_astar/coop_astar.py:72-95 | the walks of the generic search are those of the planner's successor function |
| CoopPlanner.PlannedInOrderSnoc | centralized/coop_astar/coop_astar.py:141-150 | a path that is shortest against all the paths committed before it extends the plan's in-order property by its agent |
| CoopPlanner.PlannedInOrderAt | centralized/coop_astar/coop_astar.py:137-150 | each path of the plan is a shortest path for its agent, against the table of the paths committed before it |
| CoopPlanner.PlanOf | centralized/coop_astar/coop_astar.py:153-156 | one entry per agent, in solution order, mapping the agent to the records of its path |
| CoopPlanner.Schedule | centralized/coop_astar/coop_astar.py:153-156 | definition of the schedule: entry k maps agent k to the records of path k; `CoopPlanner.PlanOfIsSchedule` relates it to the solution |
| CoopPlanner.PlanOfIsSchedule | centralized/coop_astar/coop_astar.py:153-156 | the plan of a solution is the schedule of its agents along its paths |
| CoopPlanner.AgentsOf | centralized/coop_astar/coop_astar.py:144 | the agent names of a solution, in order |
| CoopPlanner.PathsOf | centralized/coop_astar/coop_astar.py:144 | the paths of a solution, in order |
| CoopPlanner.CoopAStar.constructor | centralized/coop_astar/coop_astar.py:57-68 | empty reservation table, `max_t` 0, no current agent, `agent_dict` built from the agents, class invariant established |
| CoopPlanner.CoopAStar.MakeAgentDict | centralized/coop_astar/coop_astar.py:130-135 | `agent_dict` is updated with each agent in list order; the table is unchanged |
| CoopPlanner.CoopAStar.StateValidCheck | centralized/coop_astar/coop_astar.py:103-117 | the two loops compute exactly `state_valid` with the corrected look-ahead: in bounds, not a static obstacle, not reserved, no agent parked there already, no reservation of the goal cell in [time, `max_t`] (the source's loop stops before `max_t`; see the second finding) |
| CoopPlanner.CoopAStar.GetNeighbors | centralized/coop_astar/coop_astar.py:72-95 | the result is the successor list, in the order wait, up, down, left, right |
| CoopPlanner.CoopAStar.AppendIfAdmissible | centralized/coop_astar/coop_astar.py:75-94 | one block appends its candidate exactly when it passes `state_valid` and, for a move, `transition_valid` |
| CoopPlanner.CoopAStar.ReservePath | centralized/coop_astar/coop_astar.py:145-148 | `agent_obstacles` gains exactly the path's states and consecutive transitions |
| CoopPlanner.CoopAStar.CommitPath | centralized/coop_astar/coop_astar.py:145-150 | states and transitions reserved; the last state parked; `max_t` raised to the path's final time; the separation invariant kept |
| CoopPlanner.CoopAStar.SearchPath | centralized/coop_astar/coop_astar.py:141 | a returned path is a shortest admitted path from the agent's start to an accepted goal, and it is time-indexed; no path only when the search fails (`SearchFails`: no walk reaches an accepted goal, or `fuel` non-goal states were expanded, none farther from the start than an accepted goal); a start already at an accepted goal is returned alone |
| CoopPlanner.CoopAStar.PlanAgent | centralized/coop_astar/coop_astar.py:139-150 | the agent becomes current; a found path is committed and extends the plan's in-order shortest-path property; no path only when the agent's search fails against the current table, which is left as it was |
| CoopPlanner.CoopAStar.PlanAll | centralized/coop_astar/coop_astar.py:137-150 | agents planned in key order; committed paths are the solution's paths, each shortest against the ones before; an incomplete solution stops at the first agent whose search fails against the table of the paths before it; the invariant is kept |
| CoopPlanner.CoopAStar.ComputeSolution | centralized/coop_astar/coop_astar.py:137-157 | no plan exactly when fewer paths than agents were committed, and then the search of the next agent in key order fails against the table of the paths committed before it, which remain; otherwise every agent in key order is mapped to the records of its committed path |
| CoopPlanner.SolutionCost | centralized/coop_astar/coop_astar.py:159-160 | see `CoopPlanner.CostIsSumOfArrivals`, which states what the cost is |
| WarehouseGen.MakeMap | centralized/benchmark/warehouse_gen.py:11-19 | the dimensions are (4w + 3, 3h + 3); the obstacles are the four corners followed by the shelf cells, column by column |
| WarehouseGen.ColumnShelvesMembers | centralized/benchmark/warehouse_gen.py:16-18 | a column's shelves are its cells 1 ≤ y < top that lie off both aisle grids |
| WarehouseGen.ShelvesMembers | centralized/benchmark/warehouse_gen.py:15-18 | the shelves are the interior cells off both aisle grids |
| WarehouseGen.LayoutMembers | centralized/benchmark/warehouse_gen.py:14-18 | a cell is an obstacle exactly when it is a corner or an interior shelf cell |
| WarehouseGen.ObstaclesInsideMap | centralized/benchmark/warehouse_gen.py:13-18 | every obstacle lies inside the map's dimensions |
| WarehouseGen.ColumnShelvesCount | centralized/benchmark/warehouse_gen.py:16-18 | a column off the vertical aisles holds 2h shelf cells, a column on one holds none |
| WarehouseGen.LayoutCount | centralized/benchmark/warehouse_gen.py:14-18 | the map has 4 + 6wh obstacles |
| WarehouseGen.ShelvesBlock | centralized/benchmark/warehouse_gen.py:15-18 | each block of four columns adds 6h shelf cells |
| WarehouseGen.RowAisleGoals | centralized/benchmark/warehouse_gen.py:24-27 | the first loop nest yields the inner horizontal aisle goals, row by row |
| WarehouseGen.ColumnAisleGoals | centralized/benchmark/warehouse_gen.py:28-31 | the second loop nest yields the inner vertical aisle goals, column by column |
| WarehouseGen.FeasibleGoals | centralized/benchmark/warehouse_gen.py:22-31 | `feasible_goals` is the row goals followed by the column goals |
| WarehouseGen.RowGoalsMembers | centralized/benchmark/warehouse_gen.py:25-27 | a row's goals are its cells 2 ≤ x < right off the vertical aisles |
| WarehouseGen.RowsGoalsMembers | centralized/benchmark/warehouse_gen.py:24-27 | the row goals are exactly the cells on an inner horizontal aisle, off the vertical aisles, with 2 ≤ x ≤ 4w |
| WarehouseGen.RowsGoalsSound | centralized/benchmark/warehouse_gen.py:24-27 | every row goal lies on an inner horizontal aisle and off the vertical aisles |
| WarehouseGen.RowsGoalsComplete | centralized/benchmark/warehouse_gen.py:24-27 | every such aisle cell is a row goal |
| WarehouseGen.ColGoalsMembers | centralized/benchmark/warehouse_gen.py:29-31 | a column's goals are its cells 2 ≤ y < top off the horizontal aisles |
| WarehouseGen.ColsGoalsMembers | centralized/benchmark/warehouse_gen.py:28-31 | the column goals are exactly the cells on an inner vertical aisle, off the horizontal aisles, with 2 ≤ y ≤ 3h |
| WarehouseGen.ColsGoalsSound | centralized/benchmark/warehouse_gen.py:28-31 | every column goal lies on an inner vertical aisle and off the horizontal aisles |
| WarehouseGen.ColsGoalsComplete | centralized/benchmark/warehouse_gen.py:28-31 | every such aisle cell is a column goal |
| WarehouseGen.GoalsAreFree | centralized/benchmark/warehouse_gen.py:14-31 | every feasible goal lies on an aisle inside the shelf area and is never an obstacle |
| WarehouseGen.RowGoalsOnRow | centralized/benchmark/warehouse_gen.py:27 | a row's goals lie on that row |
| WarehouseGen.RowsGoalsBelow | centralized/benchmark/warehouse_gen.py:24-27 | the first k horizontal aisles lie below row 4 + 3k |
| WarehouseGen.ColGoalsOnColumn | centralized/benchmark/warehouse_gen.py:31 | a column's goals lie on that column |
| WarehouseGen.ColsGoalsLeft | centralized/benchmark/warehouse_gen.py:28-31 | the first k vertical aisles lie left of column 5 + 4k |
| WarehouseGen.RowGoalsDistinct | centralized/benchmark/warehouse_gen.py:25-27 | a row lists no goal twice |
| WarehouseGen.RowsGoalsDistinct | centralized/benchmark/warehouse_gen.py:24-27 | the row goals contain no repeats |
| WarehouseGen.ColGoalsDistinct | centralized/benchmark/warehouse_gen.py:29-31 | a column lists no goal twice |
| WarehouseGen.ColsGoalsDistinct | centralized/benchmark/warehouse_gen.py:28-31 | the column goals contain no repeats |
| WarehouseGen.GoalCellsDistinct | centralized/benchmark/warehouse_gen.py:22-31 | no cell is offered twice as a feasible goal |
| WarehouseGen.RowGoalsStep | centralized/benchmark/warehouse_gen.py:25-27 | one more column adds a goal unless it lies on a vertical aisle |
| WarehouseGen.RowGoalsCount | centralized/benchmark/warehouse_gen.py:25-27 | an inner horizontal aisle offers 3w goals |
| WarehouseGen.ColGoalsStep | centralized/benchmark/warehouse_gen.py:29-31 | one more row adds a goal unless it lies on a horizontal aisle |
| WarehouseGen.ColGoalsCount | centralized/benchmark/warehouse_gen.py:29-31 | an inner vertical aisle offers 2h goals |
| WarehouseGen.RowsGoalsCount | centralized/benchmark/warehouse_gen.py:24-27 | k horizontal aisles offer 3wk goals |
| WarehouseGen.ColsGoalsCount | centralized/benchmark/warehouse_gen.py:28-31 | k vertical aisles offer 2hk goals |
| WarehouseGen.GoalCellsCount | centralized/benchmark/warehouse_gen.py:22-31 | there are 3w(h − 1) + 2h(w − 1) feasible goals |
| WarehouseGen.Sample | centralized/benchmark/warehouse_gen.py:35 | a sample of k has length k and takes each element at most as often as the population holds it |
| WarehouseGen.GenerateGoals | centralized/benchmark/warehouse_gen.py:21-35 | fails exactly for a negative count; no goals when the count exceeds the feasible goals; otherwise as many goals as agents, drawn from the feasible goals without repeats |
| WarehouseGen.SampleOfDistinct | centralized/benchmark/warehouse_gen.py:35 | a sample of a list without repeats has no repeats |
| WarehouseGen.DistinctOccursOnce | centralized/benchmark/warehouse_gen.py:35 | a list without repeats holds each element at most once |
| WarehouseGen.FeasibleStarts | centralized/benchmark/warehouse_gen.py:43-51 | `max_agents` starts (none for a negative maximum); start i is the i-th border cell of the four-branch walk |
| WarehouseGen.StartOnBorder | centralized/benchmark/warehouse_gen.py:43-51 | every start lies on the map border, is not a corner, and is not an obstacle |
| WarehouseGen.BorderIsStart | centralized/benchmark/warehouse_gen.py:43-51 | every border cell that is not a corner is some start |
| WarehouseGen.StartsDistinct | centralized/benchmark/warehouse_gen.py:43-51 | different indices give different starts |
| WarehouseGen.StartsAreNotGoals | centralized/benchmark/warehouse_gen.py:21-51 | no start is a feasible goal |
| WarehouseGen.SpacedIndexInRange | centralized/benchmark/warehouse_gen.py:56 | each spaced index is a valid index into the starts |
| WarehouseGen.SpacedIndexIncreasing | centralized/benchmark/warehouse_gen.py:56 | spaced indices strictly increase from one agent to the next |
| WarehouseGen.SpacedIndexStrict | centralized/benchmark/warehouse_gen.py:56 | different agents get different spaced indices |
| WarehouseGen.Spaced | centralized/benchmark/warehouse_gen.py:56 | definition of the comprehension: one start per agent (none for a negative count), agent i taking the start at floor(i·max/agents); `WarehouseGen.SpacedIndexInRange` and `WarehouseGen.SpacedIndexStrict` state that it is well defined and picks distinct starts |
| WarehouseGen.Head | centralized/benchmark/warehouse_gen.py:54 | for 0 ≤ k ≤ length, the slice `[:k]` is the first k elements |
| WarehouseGen.NatToString | centralized/benchmark/warehouse_gen.py:65 | the decimal text is non-empty, and one digit long exactly for numbers below 10 |
| WarehouseGen.NatToStringInjective | centralized/benchmark/warehouse_gen.py:65 | different numbers have different decimal texts |
| WarehouseGen.AgentNamesDistinct | centralized/benchmark/warehouse_gen.py:65 | agents with different indices get different names |
| WarehouseGen.StartsOf | centralized/benchmark/warehouse_gen.py:65 | definition: the starts of the agent list, in order; `WarehouseGen.PlacementWellFormed` states their properties |
| WarehouseGen.GoalsOf | centralized/benchmark/warehouse_gen.py:65 | definition: the goals of the agent list, in order; `WarehouseGen.PlacementWellFormed` states their properties |
| WarehouseGen.PlaceAgents | centralized/benchmark/warehouse_gen.py:37-66 | no agents when there are too many, the strategy is unknown, or goals run out; failure exactly for a negative count under a known strategy; otherwise `agents` agents named `agent<i>`, with the strategy's starts and goals sampled from the feasible goals |
| WarehouseGen.FeasibleStartCells | centralized/benchmark/warehouse_gen.py:43-51 | as many start cells as `max_agents`, none for a negative maximum |
| WarehouseGen.PlacedStartsDistinct | centralized/benchmark/warehouse_gen.py:53-58 | under every strategy the starts are distinct feasible starts |
| WarehouseGen.PlacementWellFormed | centralized/benchmark/warehouse_gen.py:37-66 | a placement has distinct names, distinct starts and distinct goals; starts are on the border and free; goals are free; no agent starts at its goal |
| MovementCount.Moves | centralized/sipp/count.py:11-18 | definition of one agent's count, recursive on the records; `MovementCount.MovesCountsMoveSteps` proves it counts the cell changes and `MovementCount.CountMoves` that the loop computes it |
| MovementCount.MovesCountsMoveSteps | centralized/sipp/count.py:11-20 | an agent's count is the number of indices i ≥ 1 whose record differs in x or y from record i − 1 |
| MovementCount.MovesBound | centralized/sipp/count.py:11-20 | at most one move per step; none for zero or one record |
| MovementCount.MovesSnoc | centralized/sipp/count.py:12-18 | one more record adds one move exactly when its cell changes; the time stamp plays no part |
| MovementCount.MovesZeroIffStill | centralized/sipp/count.py:11-20 | the count is 0 exactly when the agent never leaves its first cell |
| MovementCount.MovesAtLeastDistance | centralized/sipp/count.py:11-20 | with unit steps, the count is at least the Manhattan distance from first to last cell |
| MovementCount.CountMoves | centralized/sipp/count.py:11-18 | the inner loop's count is the number of cell changes |
| MovementCount.CountAgentMovements | centralized/sipp/count.py:3-22 | no entries without a schedule; otherwise one entry per agent, in schedule order, holding its number of cell changes |
| MovementCount.TotalMovements | centralized/sipp/count.py:24-25 | definition of `total_movements`, the sum of the per-agent counts; its properties are `MovementCount.TotalMovementsAppend`, `MovementCount.TotalMovementsZeroIff` and `MovementCount.TotalOfSchedule` |
| MovementCount.TotalMovementsAppend | centralized/sipp/count.py:24-25 | the total of a concatenation is the sum of the totals |
| MovementCount.TotalMovementsZeroIff | centralized/sipp/count.py:24-25 | the total is 0 exactly when every count is 0, and every count is at most the total |
| MovementCount.TotalOfSchedule | centralized/sipp/count.py:3-25 | the total over a schedule never exceeds its steps, and is 0 exactly when no agent ever moves |
| StartAtGoal.AsWrittenSearch | centralized/cbs/dijkstra.py:18-19 | with `is_at_goal` as the goal test, an agent whose start is its goal gets the one-state path at once |
| StartAtGoal.AsWrittenCollides | centralized/coop_astar/coop_astar.py:110-128 | that path collides at time 1 with the agent planned before it, whose final cell differs, and the pair is not separated |
| StartAtGoal.CorrectedSearch | centralized/coop_astar/coop_astar.py:110-113 | with the look-ahead applied to the goal test, the start is rejected; a found path is longer and ends at an accepted goal |
| GoalHorizon.AsWrittenParksBeforeArrival | centralized/coop_astar/coop_astar.py:103-120 | with the look-ahead over [time, `max_t`), a later agent steps onto the final cell of an earlier agent that arrives at `max_t`; the two collide there and the pair is not separated |
| GoalHorizon.CorrectedRejectsGoal | centralized/coop_astar/coop_astar.py:110-113 | with `max_t` included, that step is rejected and no walk of the later agent ever reaches an accepted goal |

## Left out

- File and console I/O are not modelled: YAML loading and dumping, `argparse`, `main`, the `print` messages, and `view_env.py`.
- `CoopPlanner.CoopAStar.SearchPath`: it models the single-agent search with `Dijkstra.Search`. `cbs/a_star.py`, which the planner imports, is not part of this model.
- `admissible_heuristic` (coop_astar.py:122-124) is left out: it uses floating point, and the uniform-cost search never consults it.
- `get_state` (coop_astar.py:97-101) is left out: the planner never calls it.
- `Dijkstra.Search`: a `fuel` parameter bounds the number of expansions, and running out of it gives `OutOfFuel` after `fuel` expansions of non-goal states, none farther from the start than a goal. The source has no bound. With waits, the time-expanded state space is infinite, so when no accepted goal is reachable the source's loop does not end. `NoPath` can only arise when the reachable states are finite.
- `Dijkstra.Search`: `min` picks a state of least cost among ties in an unspecified order. The model picks any such state, so no tie-breaking order and no particular one of several shortest paths is promised.
- `agent_obstacles` holds states and transitions together. The model keeps them as two sets, which answer the same membership questions. Python's `__eq__`/`__hash__` become structural equality.
- `compute_solution` returns `False` when a search fails. The model returns `None`.
- `compute_solution` returns `{}` when no agent was planned (lines 151-152). The model returns the empty schedule, which is the same value.
- Dictionaries (`agent_dict`, the solution, the schedule, `movements`) are modelled as sequences of pairs in iteration order.
- `CoopPlanner.CoopAStar.ComputeSolution`: it is stated for any `agent_dict` whose key order lists keys of the dictionary and whose start states are at time 0 (`KeysValid`). It does not rely on the dictionary being the one `make_agent_dict` built, which only the constructor establishes and no method changes.
- The random draws (`random.sample`) are modelled as a choice the model does not fix. It is specified only as a sample without repeats of the right length.
- `WarehouseGen.Spaced`: the source computes `math.floor(i*max_agents/args.agents)` in floating point. The model uses exact integer division. The two agree whenever i·max_agents + agents is below 2^53: then the rounded quotient cannot reach the next integer. That holds for any map small enough to generate.
- `WarehouseGen.PlacementWellFormed`, `WarehouseGen.ObstaclesInsideMap`, `WarehouseGen.StartOnBorder`: stated for non-negative width and height only. The generator is meant for those sizes: `main` prints an error when the width or the height is at most 1 (warehouse_gen.py:81-82), but it carries on generating.
- `WarehouseGen.GoalCellsCount`: stated for width and height of at least 1.
- `MovementCount.CountAgentMovements`: records are `{t, x, y}` integers. Other YAML value types are not modelled.

## Findings

| source | as written | input that shows it | evidently intended | confidence | as-written member | corrected member |
|---|---|---|---|---|---|---|
| centralized/coop_astar/coop_astar.py:126-128 | the search of centralized/cbs/dijkstra.py (lines 18-19) applies `is_at_goal`, which compares locations only, to the start state before any expansion; the look-ahead of `state_valid` (lines 110-113), which keeps an agent from parking on a cell that a higher-priority agent passes through later, is applied only to generated successors, never to the start | a 3 × 2 grid without obstacles: agent A from (0,0) to (2,0) is planned first and passes (1,0) at time 1; agent B starts and ends at (1,0) and gets the one-state path [(0,(1,0))], so both agents are at (1,0) at time 1 | the goal test should include the look-ahead, so that an agent whose start is its goal waits or moves off until its goal stays free | not executed | StartAtGoal.AsWrittenSearch | StartAtGoal.CorrectedSearch |
| centralized/coop_astar/coop_astar.py:110-113 | the look-ahead at the goal cell checks the reservations of `range(state.time, self.max_t)`, which leaves out `max_t`; the `end_obstacles` check (lines 106-109) refuses the cell only from the time the earlier agent has parked there | the same 3 × 2 grid: agent A from (0,0) to (2,0) is planned first, so `max_t` is 2; agent B goes from (2,1) to (2,0), and its step onto (2,0) at time 1 passes every check, so B parks there from time 1 and A arrives at time 2 | the look-ahead should run up to and including `max_t`, so that no agent parks on a cell an earlier agent reaches at the horizon | not executed | GoalHorizon.AsWrittenParksBeforeArrival | GoalHorizon.CorrectedRejectsGoal |

The rest of the model uses the corrected goal test `CoopEnv.GoalAccepted`. On every state the search generates, it agrees with `is_at_goal` (`CoopEnv.GoalTestOnlyDiffersAtStart`). With it, every committed plan is separated (`Reservations.CommitKeepsSeparated`) and hence collision-free (`Reservations.CollisionFree`). `StartAtGoal.AsWrittenCollides` exhibits the collision the as-written test allows.

The rest of the model also uses the corrected look-ahead over [time, `max_t`] (`CoopEnv.GoalReservedLater`, `CoopPlanner.CoopAStar.StateValidCheck`). With it, no two agents of a separated plan end in the same cell (`Reservations.FinalCellsDistinct`), so `Reservations.CollisionFree` holds for every pair of agents. `GoalHorizon.AsWrittenParksBeforeArrival` exhibits the collision the as-written range allows.
