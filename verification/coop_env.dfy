/**
 * What one single-agent search of the cooperative planner consults
 * (centralized/coop_astar/coop_astar.py, `state_valid`, `transition_valid`,
 * `get_neighbors`): the grid, the static obstacles, the reservation table
 * left by the agents planned so far, and the goal of the agent being planned.
 * During one search none of these change, so they are gathered in a value.
 */
module CoopEnv {
  import opened Wrappers
  import opened StateModel

  type Cell = (int, int)

  /**
   * `dim0`, `dim1`: the map dimensions; `reserved` and `used`: the states and
   * the transitions of `agent_obstacles`; `parked`: `end_obstacles`;
   * `maxT`: `max_t`; `goal`: the goal location of the current agent.
   */
  datatype SearchEnv = SearchEnv(dim0: int, dim1: int, obstacles: set<Cell>,
                                 reserved: set<State>, used: set<Transition>, parked: set<State>,
                                 maxT: int, goal: Location)

  predicate InBounds(e: SearchEnv, l: Location) {
    0 <= l.x < e.dim0 && 0 <= l.y < e.dim1
  }

  /** An agent parked at this cell no later than the state's time. */
  predicate ParkedBefore(e: SearchEnv, s: State) {
    exists g :: g in e.parked && g.location == s.location && g.time <= s.time
  }

  /**
   * At the current agent's goal, some state of that cell is reserved in
   * [s.time, maxT], the horizon included.  The source's loop stops one step
   * short of `max_t`; see `GoalHorizon` for what that lets through.
   */
  predicate GoalReservedLater(e: SearchEnv, s: State) {
    s.location == e.goal && exists t :: s.time <= t <= e.maxT && State(t, s.location) in e.reserved
  }

  /** `state_valid`. */
  predicate StateValid(e: SearchEnv, s: State) {
    && InBounds(e, s.location)
    && (s.location.x, s.location.y) !in e.obstacles
    && s !in e.reserved
    && !ParkedBefore(e, s)
    && !GoalReservedLater(e, s)
  }

  /** `transition_valid`: the reversed move is not already used (no head-on swap). */
  predicate TransitionValid(e: SearchEnv, s1: State, s2: State)
    requires s2.time == s1.time + 1
  {
    Transition(s1, s2).Reverse() !in e.used
  }

  /** The five candidate actions of `get_neighbors`, in the order they are tried. */
  datatype Action = Wait | Up | Down | Left | Right

  const ActionOrder: seq<Action> := [Wait, Up, Down, Left, Right]

  function Apply(s: State, a: Action): (n: State)
    ensures n.time == s.time + 1
  {
    var l := s.location;
    match a
    case Wait => State(s.time + 1, l)
    case Up => State(s.time + 1, Location(l.x, l.y + 1))
    case Down => State(s.time + 1, Location(l.x, l.y - 1))
    case Left => State(s.time + 1, Location(l.x - 1, l.y))
    case Right => State(s.time + 1, Location(l.x + 1, l.y))
  }

  /** A wait is checked by `state_valid` alone; a move also by `transition_valid`. */
  predicate Admissible(e: SearchEnv, s: State, a: Action) {
    StateValid(e, Apply(s, a)) && (a == Wait || TransitionValid(e, s, Apply(s, a)))
  }

  /**
   * The successors `get_neighbors` returns: the admissible candidates, in
   * the order wait, up, down, left, right.
   */
  function Neighbors(e: SearchEnv, s: State): seq<State> {
    FilterAdmissible(e, s, ActionOrder)
  }

  /** The admissible actions of a list, applied, in list order. */
  function FilterAdmissible(e: SearchEnv, s: State, actions: seq<Action>): (r: seq<State>)
    ensures |r| <= |actions|
  {
    if actions == [] then []
    else (if Admissible(e, s, actions[0]) then [Apply(s, actions[0])] else [])
         + FilterAdmissible(e, s, actions[1..])
  }

  function Manhattan(a: Location, b: Location): nat {
    (if a.x < b.x then b.x - a.x else a.x - b.x) + (if a.y < b.y then b.y - a.y else a.y - b.y)
  }

  lemma {:induction false} FilterAdmissibleMembers(e: SearchEnv, s: State, actions: seq<Action>, n: State)
    ensures n in FilterAdmissible(e, s, actions) <==> exists a :: a in actions && Admissible(e, s, a) && n == Apply(s, a)
    decreases |actions|
  {
    if actions != [] {
      FilterAdmissibleMembers(e, s, actions[1..], n);
      if exists a :: a in actions && Admissible(e, s, a) && n == Apply(s, a) {
        var a :| a in actions && Admissible(e, s, a) && n == Apply(s, a);
        if a != actions[0] {
          assert a in actions[1..];
        }
      }
    }
  }

  /** Filtering a concatenation of action lists filters each part. */
  lemma {:induction false} FilterAdmissibleAppend(e: SearchEnv, s: State, a: seq<Action>, b: seq<Action>)
    ensures FilterAdmissible(e, s, a + b) == FilterAdmissible(e, s, a) + FilterAdmissible(e, s, b)
    decreases |a|
  {
    if a != [] {
      assert (a + b)[1..] == a[1..] + b;
      FilterAdmissibleAppend(e, s, a[1..], b);
    } else {
      assert a + b == b;
    }
  }

  /** The candidates are filtered one at a time, each on its own. */
  lemma FilterAdmissibleSplits(e: SearchEnv, s: State)
    ensures Neighbors(e, s) == FilterAdmissible(e, s, [Wait]) + FilterAdmissible(e, s, [Up])
      + FilterAdmissible(e, s, [Down]) + FilterAdmissible(e, s, [Left]) + FilterAdmissible(e, s, [Right])
  {
    assert ActionOrder == [Wait] + [Up] + [Down] + [Left] + [Right];
    FilterAdmissibleAppend(e, s, [Wait] + [Up] + [Down] + [Left], [Right]);
    FilterAdmissibleAppend(e, s, [Wait] + [Up] + [Down], [Left]);
    FilterAdmissibleAppend(e, s, [Wait] + [Up], [Down]);
    FilterAdmissibleAppend(e, s, [Wait], [Up]);
  }

  /** Membership in `get_neighbors`, both directions: exactly the states some admissible action reaches. */
  lemma NeighborsCharacterized(e: SearchEnv, s: State, n: State)
    ensures n in Neighbors(e, s) <==> exists a :: n == Apply(s, a) && Admissible(e, s, a)
  {
    FilterAdmissibleMembers(e, s, ActionOrder, n);
    forall a ensures a in ActionOrder {
      match a
      case Wait => assert ActionOrder[0] == a;
      case Up => assert ActionOrder[1] == a;
      case Down => assert ActionOrder[2] == a;
      case Left => assert ActionOrder[3] == a;
      case Right => assert ActionOrder[4] == a;
    }
  }

  /**
   * Every successor is one time step later, the same cell or one unit step
   * away, passes `state_valid`, and when it moves passes `transition_valid`.
   */
  lemma NeighborStep(e: SearchEnv, s: State, n: State)
    requires n in Neighbors(e, s)
    ensures n.time == s.time + 1 && Manhattan(s.location, n.location) <= 1
    ensures StateValid(e, n)
    ensures n.location != s.location ==> TransitionValid(e, s, n)
  {
    NeighborsCharacterized(e, s, n);
    var a :| n == Apply(s, a) && Admissible(e, s, a);
  }

  /** `is_at_goal`: the location matches the goal; the time is ignored. */
  predicate AtGoal(e: SearchEnv, s: State) {
    s.location == e.goal
  }

  /**
   * The goal test the planner uses: at the goal and with the goal look-ahead
   * of `state_valid` passed.  For every state `get_neighbors` produces this
   * is the same as `AtGoal` (see `GoalTestOnlyDiffersAtStart`); it differs
   * only on the start state, which `state_valid` never sees.
   */
  predicate GoalAccepted(e: SearchEnv, s: State) {
    AtGoal(e, s) && !GoalReservedLater(e, s)
  }

  lemma GoalTestOnlyDiffersAtStart(e: SearchEnv, s: State, n: State)
    requires n in Neighbors(e, s)
    ensures GoalAccepted(e, n) <==> AtGoal(e, n)
  {
    NeighborStep(e, s, n);
  }

  /** A walk of the single-agent search: from `start`, each state a successor of the one before. */
  ghost predicate EnvWalk(e: SearchEnv, start: State, w: seq<State>) {
    |w| > 0 && w[0] == start && forall i :: 0 < i < |w| ==> w[i] in Neighbors(e, w[i - 1])
  }

  /**
   * `closed` maps states to walks of the search from `start` that end at
   * them, each of at most `layer` states, and none of the states is an
   * accepted goal; every walk to an accepted goal has at least `layer`
   * states.  So the states of `closed` were expanded nearest first, and none
   * was farther from `start` than an accepted goal.
   */
  ghost predicate ExpandedWithoutGoal(e: SearchEnv, start: State, closed: map<State, seq<State>>, layer: nat) {
    && (forall s :: s in closed ==>
          EnvWalk(e, start, closed[s]) && Last(closed[s]) == s && |closed[s]| <= layer && !GoalAccepted(e, s))
    && (forall w :: EnvWalk(e, start, w) && GoalAccepted(e, Last(w)) ==> layer <= |w|)
  }

  /**
   * The search from `start` ends without a path: either no walk reaches an
   * accepted goal, or its budget of `fuel` expansions ran out on `fuel`
   * states, none of them an accepted goal and none farther from `start` than
   * an accepted goal.
   */
  ghost predicate SearchFails(e: SearchEnv, start: State, fuel: nat) {
    || (forall w :: EnvWalk(e, start, w) ==> !GoalAccepted(e, Last(w)))
    || (exists closed: map<State, seq<State>>, layer: nat ::
          |closed| == fuel && ExpandedWithoutGoal(e, start, closed, layer))
  }

  /** `p` is a walk to an accepted goal state, and no such walk is shorter. */
  ghost predicate ShortestInEnv(e: SearchEnv, start: State, p: seq<State>) {
    && EnvWalk(e, start, p) && GoalAccepted(e, Last(p))
    && forall w :: EnvWalk(e, start, w) && GoalAccepted(e, Last(w)) ==> |p| <= |w|
  }

  /** A 2 x 1 grid with nothing reserved, whose goal lies one step right of (0, 0). */
  function NearEnv(): SearchEnv {
    SearchEnv(2, 1, {}, {}, {}, {}, 0, Location(1, 0))
  }

  /** Stepping right reaches the accepted goal at time 1. */
  lemma NearGoalWalk()
    ensures EnvWalk(NearEnv(), State(0, Location(0, 0)), [State(0, Location(0, 0)), State(1, Location(1, 0))])
    ensures GoalAccepted(NearEnv(), State(1, Location(1, 0)))
  {
    var a, g := State(0, Location(0, 0)), State(1, Location(1, 0));
    NeighborsCharacterized(NearEnv(), a, g);
    assert g == Apply(a, Right) && Admissible(NearEnv(), a, Right);
  }

  /** A state reached by a walk of at most two states that is not an accepted goal. */
  lemma NearStates(w: seq<State>)
    requires EnvWalk(NearEnv(), State(0, Location(0, 0)), w) && |w| <= 2 && !GoalAccepted(NearEnv(), Last(w))
    ensures Last(w) in {State(0, Location(0, 0)), State(1, Location(0, 0))}
  {
    if |w| == 2 {
      NeighborStep(NearEnv(), w[0], w[1]);
    }
  }

  /**
   * A search that runs out of fuel had no goal nearby.  In `NearEnv` only
   * two states that are not accepted goals (the start, and waiting there)
   * are as near as the goal, so a budget of three expansions cannot run out.
   */
  lemma NearGoalIsNoFailure()
    ensures !SearchFails(NearEnv(), State(0, Location(0, 0)), 3)
  {
    var a, b, g := State(0, Location(0, 0)), State(1, Location(0, 0)), State(1, Location(1, 0));
    NearGoalWalk();
    forall closed: map<State, seq<State>>, layer: nat | ExpandedWithoutGoal(NearEnv(), a, closed, layer)
      ensures |closed| < 3
    {
      assert layer <= 2 by {
        assert Last([a, g]) == g;
      }
      forall s | s in closed
        ensures s in {a, b}
      {
        NearStates(closed[s]);
      }
      SubsetCard(closed.Keys, {a, b});
    }
  }
}
