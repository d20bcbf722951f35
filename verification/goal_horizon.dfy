/**
 * The goal look-ahead of `state_valid` stops one step short of the horizon.
 * At the current agent's goal cell it checks the reservations of the times
 * `range(state.time, max_t)`, which leaves out `max_t` itself; and the
 * `end_obstacles` check only refuses a cell from the time an earlier agent
 * has parked there.  So a later agent whose goal is the final cell of an
 * earlier agent that arrives exactly at `max_t` may park there first, and the
 * earlier agent then runs into it.
 *
 * The instance below: the 3 x 2 grid without obstacles of `StartAtGoal`;
 * agent A goes from (0, 0) to (2, 0) along the bottom row and is planned
 * first, so `max_t` is 2; agent B goes from (2, 1) to (2, 0).
 *
 * The rest of the model checks the look-ahead over `[time, max_t]`, the
 * horizon included (`CoopEnv.GoalReservedLater`); with it no two agents end
 * in the same cell (`Reservations.FinalCellsDistinct`) and no two agents
 * ever meet after time 0 (`Reservations.CollisionFree`).
 */
module GoalHorizon {
  import opened Wrappers
  import opened StateModel
  import opened CoopEnv
  import opened Reservations
  import StartAtGoal

  /** The look-ahead as written: some state of the goal cell is reserved in [s.time, maxT). */
  predicate AsWrittenGoalReservedLater(e: SearchEnv, s: State) {
    s.location == e.goal && exists t :: s.time <= t < e.maxT && State(t, s.location) in e.reserved
  }

  /** `state_valid` as written. */
  predicate AsWrittenStateValid(e: SearchEnv, s: State) {
    && InBounds(e, s.location)
    && (s.location.x, s.location.y) !in e.obstacles
    && s !in e.reserved
    && !ParkedBefore(e, s)
    && !AsWrittenGoalReservedLater(e, s)
  }

  /** B's path: one step down, onto its goal (2, 0), at time 1. */
  function PathB(): seq<State> {
    [State(0, Location(2, 1)), State(1, Location(2, 0))]
  }

  /** The table B's search sees once A is committed, with B's goal (2, 0). */
  function EnvB(): SearchEnv {
    TableEnv(3, 2, {}, [StartAtGoal.PathA()], Location(2, 0))
  }

  /** What the table holds after committing A alone. */
  lemma TableOfA()
    ensures StatesOf([StartAtGoal.PathA()]) == PathStates(StartAtGoal.PathA())
    ensures TransitionsOf([StartAtGoal.PathA()]) == PathTransitions(StartAtGoal.PathA())
    ensures EndsOf([StartAtGoal.PathA()]) == {State(2, Location(2, 0))}
    ensures Horizon([StartAtGoal.PathA()]) == 2
  {
    assert [StartAtGoal.PathA()][..0] == [];
  }

  /**
   * As written, B's step onto its goal at time 1 passes `state_valid` and
   * `transition_valid`, and `is_at_goal` accepts it; B's start is not its
   * goal, so no path is shorter than these two states.  At
   * time 2 A arrives at (2, 0), where B is parked: the agents collide, and
   * the pair breaks the separation the corrected look-ahead keeps.
   */
  lemma AsWrittenParksBeforeArrival()
    ensures AsWrittenStateValid(EnvB(), PathB()[1]) && TransitionValid(EnvB(), PathB()[0], PathB()[1])
    ensures AtGoal(EnvB(), Last(PathB())) && !AtGoal(EnvB(), PathB()[0])
    ensures Last(StartAtGoal.PathA()).location == Last(PathB()).location
    ensures Position(StartAtGoal.PathA(), 2) == Position(PathB(), 2)
    ensures !Separated([StartAtGoal.PathA(), PathB()])
  {
    var a := StartAtGoal.PathA();
    TableOfA();
    assert !AsWrittenGoalReservedLater(EnvB(), PathB()[1]) by {
      forall t | 1 <= t < 2 ensures State(t, Location(2, 0)) !in PathStates(a) {
        assert t == 1;
      }
    }
    assert !ParkedBefore(EnvB(), PathB()[1]);
    PathTransitionsMembers(a, Transition(PathB()[0], PathB()[1]).Reverse());
    var ps := [a, PathB()];
    assert ps[..1] == [a];
    assert !GoalClearUntil(a, PathB(), 2) by {
      assert a[2].location == Last(PathB()).location;
    }
  }

  /**
   * With the horizon included, B can never be accepted at (2, 0): before or
   * at time 2 A's arrival is within the look-ahead, and from time 2 on A is
   * parked there.  B's search fails instead of producing a colliding path.
   */
  lemma CorrectedRejectsGoal()
    ensures !StateValid(EnvB(), PathB()[1])
    ensures forall w :: EnvWalk(EnvB(), PathB()[0], w) ==> !GoalAccepted(EnvB(), Last(w))
  {
    var e := EnvB();
    TableOfA();
    assert State(2, Location(2, 0)) in e.reserved;
    assert State(2, Location(2, 0)) in e.parked;
    forall w | EnvWalk(e, PathB()[0], w)
      ensures !GoalAccepted(e, Last(w))
    {
      if |w| > 1 {
        NeighborStep(e, w[|w| - 2], Last(w));
      }
    }
  }
}
