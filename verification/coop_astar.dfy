/**
 * The prioritized (cooperative) planner of
 * centralized/coop_astar/coop_astar.py: agents are planned one after another
 * in the order of `agent_dict`; each single-agent search treats the paths
 * already committed as moving obstacles, and each found path is committed to
 * the reservation table before the next agent is planned.
 */
module CoopPlanner {
  import opened Wrappers
  import opened StateModel
  import opened CoopEnv
  import opened Reservations
  import Dijkstra

  /** One entry of the `agents` list: its name, start cell and goal cell. */
  datatype Agent = Agent(name: string, start: Cell, goal: Cell)

  /** A value of `agent_dict`: the start and the goal state, both at time 0. */
  datatype Endpoints = Endpoints(start: State, goal: State)

  function EndpointsOf(a: Agent): Endpoints {
    Endpoints(State(0, Location(a.start.0, a.start.1)), State(0, Location(a.goal.0, a.goal.1)))
  }

  /** `agent_dict` after `make_agent_dict` has updated `d` with `agents`, in order. */
  function AgentDictFrom(d: map<string, Endpoints>, agents: seq<Agent>): map<string, Endpoints> {
    if agents == [] then d
    else AgentDictFrom(d, agents[..|agents| - 1])[Last(agents).name := EndpointsOf(Last(agents))]
  }

  /** The key order of that dictionary: a new key goes last, an updated key keeps its place. */
  function AgentOrderFrom(o: seq<string>, agents: seq<Agent>): seq<string> {
    if agents == [] then o
    else
      var o' := AgentOrderFrom(o, agents[..|agents| - 1]);
      if Last(agents).name in o' then o' else o' + [Last(agents).name]
  }

  function AgentDictOf(agents: seq<Agent>): map<string, Endpoints> {
    AgentDictFrom(map[], agents)
  }

  function AgentOrderOf(agents: seq<Agent>): seq<string> {
    AgentOrderFrom([], agents)
  }

  function Names(agents: seq<Agent>): set<string> {
    set a | a in agents :: a.name
  }

  /**
   * The key order lists each key of the dictionary exactly once, and the keys
   * are the initial ones and the agents' names.
   */
  lemma {:induction false} AgentDictKeys(d: map<string, Endpoints>, o: seq<string>, agents: seq<Agent>)
    requires Distinct(o) && forall n :: n in d <==> n in o
    ensures Distinct(AgentOrderFrom(o, agents))
    ensures forall n :: n in AgentDictFrom(d, agents) <==> n in AgentOrderFrom(o, agents)
    ensures AgentDictFrom(d, agents).Keys == d.Keys + Names(agents)
  {
    if agents != [] {
      var prefix := agents[..|agents| - 1];
      AgentDictKeys(d, o, prefix);
      assert agents == prefix + [Last(agents)];
      assert Names(agents) == Names(prefix) + {Last(agents).name};
    }
  }

  /** An entry of the dictionary belongs to the last agent of that name: later entries overwrite earlier ones. */
  lemma {:induction false} AgentDictLastWins(d: map<string, Endpoints>, agents: seq<Agent>, k: int)
    requires 0 <= k < |agents| && forall k' :: k < k' < |agents| ==> agents[k'].name != agents[k].name
    ensures agents[k].name in AgentDictFrom(d, agents)
    ensures AgentDictFrom(d, agents)[agents[k].name] == EndpointsOf(agents[k])
  {
    if k < |agents| - 1 {
      var prefix := agents[..|agents| - 1];
      AgentDictLastWins(d, prefix, k);
    }
  }

  /** Every start and goal state in the dictionary is at time 0. */
  lemma {:induction false} AgentDictAtTimeZero(d: map<string, Endpoints>, agents: seq<Agent>)
    requires forall n :: n in d ==> d[n].start.time == 0 && d[n].goal.time == 0
    ensures forall n :: n in AgentDictFrom(d, agents) ==>
      AgentDictFrom(d, agents)[n].start.time == 0 && AgentDictFrom(d, agents)[n].goal.time == 0
  {
    if agents != [] {
      AgentDictAtTimeZero(d, agents[..|agents| - 1]);
    }
  }

  /** With distinct names the agents are planned in list order. */
  lemma {:induction false} DistinctNamesKeepListOrder(agents: seq<Agent>)
    requires forall i, j :: 0 <= i < j < |agents| ==> agents[i].name != agents[j].name
    ensures |AgentOrderOf(agents)| == |agents|
    ensures forall k :: 0 <= k < |agents| ==> AgentOrderOf(agents)[k] == agents[k].name
  {
    if agents != [] {
      var prefix := agents[..|agents| - 1];
      DistinctNamesKeepListOrder(prefix);
      assert Last(agents).name !in AgentOrderOf(prefix);
    }
  }

  /** With one record per time step from time 0, the records are time-indexed. */
  ghost predicate TimeIndexed(records: seq<Record>) {
    |records| > 0 && forall i :: 0 <= i < |records| ==> records[i].t == i
  }

  /** `compute_solution_cost`: the total number of states over all agents. */
  function SolutionCost(plan: seq<(string, seq<Record>)>): nat {
    if plan == [] then 0 else SolutionCost(plan[..|plan| - 1]) + |Last(plan).1|
  }

  /** The sum of the agents' arrival times, the time of each agent's last record. */
  function ArrivalSum(plan: seq<(string, seq<Record>)>): int {
    if plan == [] then 0
    else ArrivalSum(plan[..|plan| - 1]) + (if Last(plan).1 == [] then 0 else Last(Last(plan).1).t)
  }

  /** For a time-indexed plan the cost is the sum of the arrival times plus one per agent. */
  lemma {:induction false} CostIsSumOfArrivals(plan: seq<(string, seq<Record>)>)
    requires forall k :: 0 <= k < |plan| ==> TimeIndexed(plan[k].1)
    ensures SolutionCost(plan) == ArrivalSum(plan) + |plan|
  {
    if plan != [] {
      var prefix := plan[..|plan| - 1];
      assert forall k :: 0 <= k < |prefix| ==> prefix[k] == plan[k];
      CostIsSumOfArrivals(prefix);
      assert TimeIndexed(plan[|plan| - 1].1);
    }
  }

  /** The records of a committed path are time-indexed. */
  lemma PlannedRecordsTimeIndexed(p: seq<State>)
    requires Planned(p)
    ensures TimeIndexed(Records(p))
  {
  }

  /** One time step per state, from time 0: state k is at time k. */
  lemma {:induction false} TimesFromZero(w: seq<State>)
    requires |w| > 0 && w[0].time == 0 && forall k :: 0 < k < |w| ==> w[k].time == w[k - 1].time + 1
    ensures forall k :: 0 <= k < |w| ==> w[k].time == k
  {
    if |w| > 1 {
      TimesFromZero(w[..|w| - 1]);
      assert w[|w| - 2].time == |w| - 2;
    }
  }

  /** A walk of the search that starts at time 0 is a plannable path that passed every check. */
  lemma WalkIsPlannedAndAdmissible(e: SearchEnv, start: State, w: seq<State>)
    requires EnvWalk(e, start, w) && start.time == 0
    ensures Planned(w) && AdmissiblePath(e, w)
  {
    forall k | 0 < k < |w|
      ensures w[k].time == w[k - 1].time + 1 && Manhattan(w[k - 1].location, w[k].location) <= 1
      ensures AdmittedStep(e, w, k)
    {
      NeighborStep(e, w[k - 1], w[k]);
    }
    TimesFromZero(w);
    UnitStepsIntro(w);
    AdmissibleIntro(e, w);
  }

  /** The walks of the generic search over `nb` are exactly the walks of the environment. */
  lemma WalkBridge(e: SearchEnv, nb: State -> seq<State>, start: State, w: seq<State>)
    requires forall s :: nb(s) == Neighbors(e, s)
    ensures Dijkstra.WalkFrom(nb, start, w) <==> EnvWalk(e, start, w)
  {
  }

  /**
   * Path k of `ps` is a shortest path for an agent with endpoints `ends`
   * against the reservation table of the paths committed before it.
   */
  ghost predicate PlannedAt(dimension: Cell, obstacles: set<Cell>, ps: seq<seq<State>>, k: int, ends: Endpoints)
    requires 0 <= k < |ps|
  {
    ShortestInEnv(TableEnv(dimension.0, dimension.1, obstacles, ps[..k], ends.goal.location), ends.start, ps[k])
  }

  /**
   * The paths of `ps` from position `base` on were planned, in order, for the
   * agents named in `names`, with the endpoints `dict` gives them.
   */
  ghost predicate PlannedInOrder(dimension: Cell, obstacles: set<Cell>, ps: seq<seq<State>>, base: nat,
                                 names: seq<string>, dict: map<string, Endpoints>)
    decreases |names|, 1
  {
    |ps| == base + |names| && (names == [] || PlannedLast(dimension, obstacles, ps, base, names, dict))
  }

  /**
   * The last path of `ps` was planned for the last agent of `names` against
   * the paths before it, and those were planned in order.
   */
  ghost predicate PlannedLast(dimension: Cell, obstacles: set<Cell>, ps: seq<seq<State>>, base: nat,
                              names: seq<string>, dict: map<string, Endpoints>)
    requires |ps| == base + |names| && names != []
    decreases |names|, 0
  {
    && PlannedInOrder(dimension, obstacles, ps[..|ps| - 1], base, names[..|names| - 1], dict)
    && Last(names) in dict
    && PlannedAt(dimension, obstacles, ps, |ps| - 1, dict[Last(names)])
  }

  /** A path planned against all the paths before it extends the order by its agent. */
  lemma PlannedInOrderSnoc(dimension: Cell, obstacles: set<Cell>, ps: seq<seq<State>>, base: nat,
                           names: seq<string>, dict: map<string, Endpoints>, name: string, p: seq<State>)
    requires PlannedInOrder(dimension, obstacles, ps, base, names, dict) && name in dict
    requires ShortestInEnv(TableEnv(dimension.0, dimension.1, obstacles, ps, dict[name].goal.location), dict[name].start, p)
    ensures PlannedInOrder(dimension, obstacles, ps + [p], base, names + [name], dict)
  {
    PrefixOfSnoc(ps, p, |ps|);
    PrefixOfSnoc(names, name, |names|);
  }

  /** What `PlannedInOrder` promises about each of its paths. */
  lemma {:induction false} PlannedInOrderAt(dimension: Cell, obstacles: set<Cell>, ps: seq<seq<State>>, base: nat,
                                            names: seq<string>, dict: map<string, Endpoints>, k: int)
    requires PlannedInOrder(dimension, obstacles, ps, base, names, dict) && 0 <= k < |names|
    ensures names[k] in dict && PlannedAt(dimension, obstacles, ps, base + k, dict[names[k]])
    decreases |names|
  {
    if k < |names| - 1 {
      var q := ps[..|ps| - 1];
      PlannedInOrderAt(dimension, obstacles, q, base, names[..|names| - 1], dict, k);
      assert q[..base + k] == ps[..base + k] && q[base + k] == ps[base + k];
    }
  }

  function PlanOf(solution: seq<(string, seq<State>)>): (plan: seq<(string, seq<Record>)>)
    ensures |plan| == |solution|
    ensures forall k :: 0 <= k < |solution| ==> plan[k] == (solution[k].0, Records(solution[k].1))
  {
    if solution == [] then [] else PlanOf(solution[..|solution| - 1]) + [(Last(solution).0, Records(Last(solution).1))]
  }

  /** The schedule that sends agent `names[k]` along `paths[k]`, for every k, in that order. */
  function Schedule(names: seq<string>, paths: seq<seq<State>>): (plan: seq<(string, seq<Record>)>)
    requires |names| == |paths|
    ensures |plan| == |names|
    ensures forall k :: 0 <= k < |names| ==> plan[k] == (names[k], Records(paths[k]))
  {
    seq(|names|, k requires 0 <= k < |names| => (names[k], Records(paths[k])))
  }

  /** The records of a solution are the schedule of its agents along its paths. */
  lemma PlanOfIsSchedule(solution: seq<(string, seq<State>)>)
    ensures PlanOf(solution) == Schedule(AgentsOf(solution), PathsOf(solution))
  {
  }

  /** The agent names of a solution, in order. */
  function AgentsOf(solution: seq<(string, seq<State>)>): (r: seq<string>)
    ensures |r| == |solution| && forall k :: 0 <= k < |solution| ==> r[k] == solution[k].0
  {
    if solution == [] then [] else AgentsOf(solution[..|solution| - 1]) + [Last(solution).0]
  }

  /** The paths of a solution, in order. */
  function PathsOf(solution: seq<(string, seq<State>)>): (r: seq<seq<State>>)
    ensures |r| == |solution| && forall k :: 0 <= k < |solution| ==> r[k] == solution[k].1
  {
    if solution == [] then [] else PathsOf(solution[..|solution| - 1]) + [Last(solution).1]
  }

  lemma ProjectionsSnoc(solution: seq<(string, seq<State>)>, entry: (string, seq<State>))
    ensures AgentsOf(solution + [entry]) == AgentsOf(solution) + [entry.0]
    ensures PathsOf(solution + [entry]) == PathsOf(solution) + [entry.1]
  {
    assert (solution + [entry])[..|solution|] == solution;
  }

  class CoopAStar {
    const dimension: Cell
    const obstacles: set<Cell>
    const agents: seq<Agent>
    var agentDict: map<string, Endpoints>
    /** The iteration order of `agent_dict`. */
    var agentOrder: seq<string>
    /** The states of `agent_obstacles`. */
    var agentObstacles: set<State>
    /** The transitions of `agent_obstacles`. */
    var agentTransitions: set<Transition>
    var endObstacles: set<State>
    var maxT: int
    var currAgent: Option<string>
    /** The paths committed so far, in commit order. */
    ghost var committed: seq<seq<State>>

    /** `agent_dict` and its key order are the ones `make_agent_dict` builds from `agents`. */
    ghost predicate DictValid()
      reads this`agentDict, this`agentOrder
    {
      agentDict == AgentDictOf(agents) && agentOrder == AgentOrderOf(agents)
    }

    /** Every name in the key order has an entry, and every start state is at time 0. */
    ghost predicate KeysValid()
      reads this`agentDict, this`agentOrder
    {
      && (forall k :: 0 <= k < |agentOrder| ==> agentOrder[k] in agentDict)
      && (forall n :: n in agentDict ==> agentDict[n].start.time == 0)
    }

    /**
     * The reservation table is the one the committed paths produce, and the
     * committed paths are separated from each other.
     */
    ghost predicate TableValid()
      reads this`agentObstacles, this`agentTransitions, this`endObstacles, this`maxT, this`committed
    {
      && agentObstacles == StatesOf(committed)
      && agentTransitions == TransitionsOf(committed)
      && endObstacles == EndsOf(committed)
      && maxT == Horizon(committed)
      && Separated(committed)
    }

    ghost predicate Valid()
      reads this
    {
      KeysValid() && TableValid() && (currAgent.Some? ==> currAgent.value in agentDict)
    }

    constructor (dimension: Cell, agents: seq<Agent>, obstacles: set<Cell>)
      ensures this.dimension == dimension && this.agents == agents && this.obstacles == obstacles
      ensures Valid() && DictValid() && committed == [] && currAgent == None
      ensures agentObstacles == {} && agentTransitions == {} && endObstacles == {} && maxT == 0
    {
      this.dimension := dimension;
      this.obstacles := obstacles;
      this.agents := agents;
      agentObstacles := {};
      agentTransitions := {};
      endObstacles := {};
      maxT := 0;
      agentDict := map[];
      agentOrder := [];
      currAgent := None;
      committed := [];
      new;
      MakeAgentDict();
      AgentDictKeys(map[], [], agents);
      AgentDictAtTimeZero(map[], agents);
    }

    /** `make_agent_dict`: one entry per agent name, a later agent overwriting an earlier one. */
    method MakeAgentDict()
      modifies this
      ensures agentDict == AgentDictFrom(old(agentDict), agents)
      ensures agentOrder == AgentOrderFrom(old(agentOrder), agents)
      ensures agentObstacles == old(agentObstacles) && agentTransitions == old(agentTransitions)
      ensures endObstacles == old(endObstacles) && maxT == old(maxT)
      ensures currAgent == old(currAgent) && committed == old(committed)
    {
      var i := 0;
      while i < |agents|
        invariant 0 <= i <= |agents|
        invariant agentDict == AgentDictFrom(old(agentDict), agents[..i])
        invariant agentOrder == AgentOrderFrom(old(agentOrder), agents[..i])
        invariant agentObstacles == old(agentObstacles) && agentTransitions == old(agentTransitions)
        invariant endObstacles == old(endObstacles) && maxT == old(maxT)
        invariant currAgent == old(currAgent) && committed == old(committed)
      {
        var a := agents[i];
        assert agents[..i + 1][..i] == agents[..i];
        if a.name !in agentOrder {
          agentOrder := agentOrder + [a.name];
        }
        agentDict := agentDict[a.name := EndpointsOf(a)];
        i := i + 1;
      }
      assert agents[..i] == agents;
    }

    /** The environment a search sees for a goal location. */
    function Snapshot(goal: Location): SearchEnv
      reads this`agentObstacles, this`agentTransitions, this`endObstacles, this`maxT
    {
      SearchEnv(dimension.0, dimension.1, obstacles, agentObstacles, agentTransitions, endObstacles, maxT, goal)
    }

    /** The environment of the agent being planned. */
    function Env(): SearchEnv
      reads this`currAgent, this`agentDict, this`agentObstacles, this`agentTransitions, this`endObstacles, this`maxT
      requires currAgent.Some? && currAgent.value in agentDict
    {
      Snapshot(agentDict[currAgent.value].goal.location)
    }

    /**
     * `state_valid`, with its loop over `end_obstacles` and its look-ahead
     * loop over the goal cell's states from `time` up to and including
     * `max_t`; the source stops before `max_t` (see `GoalHorizon`).
     */
    method StateValidCheck(s: State) returns (ok: bool)
      requires currAgent.Some? && currAgent.value in agentDict
      ensures ok == StateValid(Env(), s)
    {
      var inBounds := 0 <= s.location.x < dimension.0 && 0 <= s.location.y < dimension.1;
      var endCollision := false;
      var rest := endObstacles;
      while rest != {}
        invariant rest <= endObstacles
        invariant endCollision <==> exists g :: g in endObstacles - rest && g.location == s.location && g.time <= s.time
        decreases |rest|
      {
        var g :| g in rest;
        if g.location == s.location && g.time <= s.time {
          endCollision := true;
        }
        rest := rest - {g};
      }
      assert endCollision == ParkedBefore(Env(), s);
      if s.location == agentDict[currAgent.value].goal.location {
        var t := s.time;
        while t <= maxT
          invariant s.time <= t && (s.time <= maxT ==> t <= maxT + 1) && (maxT < s.time ==> t == s.time)
          invariant endCollision <==> ParkedBefore(Env(), s) || exists u :: s.time <= u < t && State(u, s.location) in agentObstacles
        {
          if State(t, s.location) in agentObstacles {
            endCollision := true;
          }
          t := t + 1;
        }
      }
      ok := inBounds
        && (s.location.x, s.location.y) !in obstacles
        && State(s.time, Location(s.location.x, s.location.y)) !in agentObstacles
        && !endCollision;
    }

    /** `get_neighbors`: wait, up, down, left, right, appended when they pass their checks. */
    method GetNeighbors(s: State) returns (ns: seq<State>)
      requires currAgent.Some? && currAgent.value in agentDict
      ensures ns == Neighbors(Env(), s)
    {
      ns := [];
      ns := AppendIfAdmissible(s, Wait, ns);
      ns := AppendIfAdmissible(s, Up, ns);
      ns := AppendIfAdmissible(s, Down, ns);
      ns := AppendIfAdmissible(s, Left, ns);
      ns := AppendIfAdmissible(s, Right, ns);
      FilterAdmissibleSplits(Env(), s);
    }

    /**
     * One block of `get_neighbors`: the candidate of action `a` is appended
     * when it passes `state_valid` and, unless it is the wait, `transition_valid`.
     */
    method AppendIfAdmissible(s: State, a: Action, ns: seq<State>) returns (ns': seq<State>)
      requires currAgent.Some? && currAgent.value in agentDict
      ensures ns' == ns + FilterAdmissible(Env(), s, [a])
    {
      var n := Apply(s, a);
      var ok := StateValidCheck(n);
      if ok && (a == Wait || TransitionValid(Env(), s, n)) {
        ns' := ns + [n];
      } else {
        ns' := ns;
      }
    }

    /**
     * The reservation loop of `compute_solution`: every state of the path and
     * every transition between consecutive states goes into `agent_obstacles`.
     */
    method ReservePath(path: seq<State>)
      requires forall k :: 0 < k < |path| ==> path[k].time == path[k - 1].time + 1
      modifies this`agentObstacles, this`agentTransitions
      ensures agentObstacles == old(agentObstacles) + PathStates(path)
      ensures agentTransitions == old(agentTransitions) + PathTransitions(path)
    {
      var i := 0;
      while i < |path|
        invariant 0 <= i <= |path|
        invariant agentObstacles == old(agentObstacles) + PathStates(path[..i])
        invariant agentTransitions == old(agentTransitions) + PathTransitions(path[..i])
      {
        PathStatesExtend(path, i);
        UnionAssoc(old(agentObstacles), PathStates(path[..i]), {path[i]});
        agentObstacles := agentObstacles + {path[i]};
        if i > 0 {
          match NewTransition(path[i - 1], path[i])
          case Success(t) =>
            PathTransitionsExtend(path, i);
            UnionAssoc(old(agentTransitions), PathTransitions(path[..i]), {t});
            agentTransitions := agentTransitions + {t};
          case Failure(_) =>
            assert false;
        } else {
          assert PathTransitions(path[..1]) == {};
        }
        i := i + 1;
      }
      assert path[..i] == path;
    }

    /**
     * The commit step of `compute_solution`: the path is reserved, its last
     * state is parked, and `max_t` is raised to the path's final time.
     */
    method CommitPath(path: seq<State>)
      requires TableValid() && currAgent.Some? && currAgent.value in agentDict && Planned(path)
      requires AdmissiblePath(Env(), path) && GoalAccepted(Env(), Last(path))
      modifies this`agentObstacles, this`agentTransitions, this`endObstacles, this`maxT, this`committed
      ensures TableValid() && committed == old(committed) + [path]
      ensures agentObstacles == old(agentObstacles) + PathStates(path)
      ensures agentTransitions == old(agentTransitions) + PathTransitions(path)
      ensures endObstacles == old(endObstacles) + {Last(path)}
      ensures maxT == if old(maxT) < Last(path).time then Last(path).time else old(maxT)
    {
      ghost var e := Env();
      CommitKeepsSeparated(committed, e, path);
      CommitGrowsTable(committed, path);
      ReservePath(path);
      endObstacles := endObstacles + {Last(path)};
      if maxT < Last(path).time {
        maxT := Last(path).time;
      }
      committed := committed + [path];
    }

    /**
     * `self.a_star.search(agent)` for the current agent: a search from its
     * start state over the neighbours of `get_neighbors`, accepting a state at
     * its goal that no later reservation disturbs. No path is given only when
     * the goal is unreachable or the search's fuel runs out.
     */
    method SearchPath(fuel: nat) returns (r: Option<seq<State>>)
      requires currAgent.Some? && currAgent.value in agentDict && agentDict[currAgent.value].start.time == 0
      ensures r.Some? ==> ShortestInEnv(Env(), agentDict[currAgent.value].start, r.value)
      ensures r.Some? ==> Planned(r.value) && AdmissiblePath(Env(), r.value)
      ensures r.None? ==> SearchFails(Snapshot(agentDict[currAgent.value].goal.location), agentDict[currAgent.value].start, fuel)
      ensures fuel > 0 && GoalAccepted(Env(), agentDict[currAgent.value].start) ==>
        r == Some([agentDict[currAgent.value].start])
    {
      var start := agentDict[currAgent.value].start;
      var e := Env();
      var nb := (s: State) => Neighbors(e, s);
      var atGoal := (s: State) => GoalAccepted(e, s);
      var found, closed, layer := Dijkstra.Search(start, atGoal, nb, fuel);
      forall w ensures Dijkstra.WalkFrom(nb, start, w) <==> EnvWalk(e, start, w) {
        WalkBridge(e, nb, start, w);
      }
      if found.OutOfFuel? {
        ghost var walks := map s | s in closed :: Dijkstra.WalkWithin(nb, start, s, layer);
        assert walks.Keys == closed;
        assert ExpandedWithoutGoal(e, start, walks, layer);
        return None;
      }
      if found.NoPath? {
        return None;
      }
      WalkIsPlannedAndAdmissible(e, start, found.path);
      r := Some(found.path);
    }

    /**
     * One round of the loop of `compute_solution`: the agent becomes the
     * current agent, is searched for, and its path, when one is found, is
     * committed to the reservation table.
     */
    method PlanAgent(name: string, fuel: nat, ghost base: nat, ghost names: seq<string>) returns (path: Option<seq<State>>)
      requires KeysValid() && TableValid() && name in agentDict
      requires PlannedInOrder(dimension, obstacles, committed, base, names, agentDict)
      modifies this`currAgent, this`agentObstacles, this`agentTransitions, this`endObstacles, this`maxT, this`committed
      ensures TableValid() && currAgent == Some(name)
      ensures path.None? ==> committed == old(committed)
      ensures path.None? ==> SearchFails(Snapshot(agentDict[name].goal.location), agentDict[name].start, fuel)
      ensures path.Some? ==> committed == old(committed) + [path.value]
      ensures path.Some? ==> PlannedInOrder(dimension, obstacles, committed, base, names + [name], agentDict)
    {
      currAgent := Some(name);
      path := SearchPath(fuel);
      if path.Some? {
        PlannedInOrderSnoc(dimension, obstacles, committed, base, names, agentDict, name, path.value);
        CommitPath(path.value);
      }
    }

    /**
     * The loop of `compute_solution`: plans every agent of `agentOrder` in
     * turn, each by a search against the table left by the ones before it,
     * commits each path, and stops at the first agent without one.
     */
    method PlanAll(fuel: nat) returns (solution: seq<(string, seq<State>)>, complete: bool)
      requires Valid()
      modifies this`currAgent, this`agentObstacles, this`agentTransitions, this`endObstacles, this`maxT, this`committed
      ensures Valid()
      ensures |solution| <= |agentOrder| && (complete <==> |solution| == |agentOrder|)
      ensures AgentsOf(solution) == agentOrder[..|solution|]
      ensures committed == old(committed) + PathsOf(solution)
      ensures PlannedInOrder(dimension, obstacles, committed, |old(committed)|, agentOrder[..|solution|], agentDict)
      ensures !complete ==> SearchFails(Snapshot(agentDict[agentOrder[|solution|]].goal.location),
                                        agentDict[agentOrder[|solution|]].start, fuel)
    {
      ghost var base := |committed|;
      solution := [];
      var idx := 0;
      while idx < |agentOrder|
        invariant 0 <= idx == |solution| <= |agentOrder|
        invariant KeysValid() && TableValid() && (currAgent.Some? ==> currAgent.value in agentDict)
        invariant AgentsOf(solution) == agentOrder[..idx]
        invariant committed == old(committed) + PathsOf(solution)
        invariant PlannedInOrder(dimension, obstacles, committed, base, agentOrder[..idx], agentDict)
      {
        var name := agentOrder[idx];
        ghost var before := solution;
        var found := PlanAgent(name, fuel, base, agentOrder[..idx]);
        if found.None? {
          return solution, false;
        }
        solution := solution + [(name, found.value)];
        ProjectionsSnoc(before, (name, found.value));
        AppendAssoc(old(committed), PathsOf(before), [found.value]);
        PrefixSnoc(agentOrder, idx);
        idx := idx + 1;
      }
      complete := true;
    }

    /**
     * `compute_solution`: no plan as soon as one agent's search fails (the
     * paths committed before it stay in the table); otherwise every agent,
     * in dictionary order, is mapped to the records of the path planned for
     * it against the paths of the agents before it.
     */
    method ComputeSolution(fuel: nat) returns (plan: Option<seq<(string, seq<Record>)>>)
      requires Valid()
      modifies this`currAgent, this`agentObstacles, this`agentTransitions, this`endObstacles, this`maxT, this`committed
      ensures Valid()
      ensures |old(committed)| <= |committed| <= |old(committed)| + |agentOrder|
      ensures committed[..|old(committed)|] == old(committed)
      ensures PlannedInOrder(dimension, obstacles, committed, |old(committed)|,
                             agentOrder[..|committed| - |old(committed)|], agentDict)
      ensures plan.None? <==> |committed| < |old(committed)| + |agentOrder|
      ensures plan.None? ==>
        SearchFails(Snapshot(agentDict[agentOrder[|committed| - |old(committed)|]].goal.location),
                    agentDict[agentOrder[|committed| - |old(committed)|]].start, fuel)
      ensures plan.Some? ==> |committed| == |old(committed)| + |agentOrder|
      ensures plan.Some? ==> plan.value == Schedule(agentOrder, committed[|old(committed)|..])
    {
      var solution, complete := PlanAll(fuel);
      assert committed[|old(committed)|..] == PathsOf(solution);
      if complete {
        PlanOfIsSchedule(solution);
        assert AgentsOf(solution) == agentOrder;
        plan := Some(PlanOf(solution));
      } else {
        plan := None;
      }
    }
  }
}
