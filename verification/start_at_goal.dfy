/**
 * An agent whose start cell is its goal cell.  The search pops the start
 * state first and applies `is_at_goal` to it, which compares locations only;
 * `state_valid`, with its look-ahead for later reservations of the goal
 * cell, is never applied to the start state.  So such an agent is given the
 * one-state path [start] and parked at its goal from time 0, even when an
 * agent planned earlier passes through that cell later.
 *
 * The instance below: a 3 x 2 grid without obstacles; agent A goes from
 * (0, 0) to (2, 0) and is planned first; agent B starts and ends at (1, 0).
 */
module StartAtGoal {
  import opened Wrappers
  import opened StateModel
  import opened CoopEnv
  import opened Reservations
  import Dijkstra

  /** A's committed path: along the bottom row, one cell per time step. */
  function PathA(): seq<State> {
    [State(0, Location(0, 0)), State(1, Location(1, 0)), State(2, Location(2, 0))]
  }

  function StartB(): State {
    State(0, Location(1, 0))
  }

  /** The table B's search sees once A is committed, with B's goal (1, 0). */
  function EnvB(): SearchEnv {
    TableEnv(3, 2, {}, [PathA()], Location(1, 0))
  }

  /** The search as written: its goal test is `is_at_goal`, so B's start state is accepted at once. */
  method AsWrittenSearch(fuel: nat) returns (r: Dijkstra.SearchResult<State>)
    requires fuel > 0
    ensures r == Dijkstra.Found([StartB()])
  {
    var e := EnvB();
    assert AtGoal(e, StartB());
    ghost var closed, layer;
    r, closed, layer := Dijkstra.Search(StartB(), (s: State) => AtGoal(e, s), (s: State) => Neighbors(e, s), fuel);
  }

  /**
   * Committed after A, the as-written path parks B at (1, 0) from time 0,
   * while A is at (1, 0) at time 1: the two agents collide although their
   * final cells differ, and the pair of paths breaks the separation every
   * plan built with the look-ahead keeps.
   */
  lemma AsWrittenCollides()
    ensures Last(PathA()).location != Last([StartB()]).location
    ensures Position(PathA(), 1) == Position([StartB()], 1)
    ensures !Separated([PathA(), [StartB()]])
  {
    var ps := [PathA(), [StartB()]];
    assert ps[..1] == [PathA()];
    assert Horizon([PathA()]) == 2 by {
      assert [PathA()][..0] == [];
    }
    assert !GoalClearUntil(PathA(), [StartB()], 2) by {
      assert PathA()[1].location == Last([StartB()]).location;
    }
  }

  /**
   * The search with the corrected goal test, the look-ahead of `state_valid`
   * applied to the goal state as well: B's start is rejected, because A
   * reserves (1, 0) at time 1 < max_t, so a found path is longer than [start].
   */
  method CorrectedSearch(fuel: nat) returns (r: Dijkstra.SearchResult<State>)
    ensures !GoalAccepted(EnvB(), StartB())
    ensures r.Found? ==> |r.path| > 1 && r.path[0] == StartB() && GoalAccepted(EnvB(), Last(r.path))
  {
    var e := EnvB();
    assert State(1, Location(1, 0)) in StatesOf([PathA()]) by {
      assert [PathA()][..0] == [];
      assert StatesOf([PathA()]) == PathStates(PathA());
    }
    assert Horizon([PathA()]) == 2 by {
      assert [PathA()][..0] == [];
    }
    assert GoalReservedLater(e, StartB());
    ghost var closed, layer;
    r, closed, layer := Dijkstra.Search(StartB(), (s: State) => GoalAccepted(e, s), (s: State) => Neighbors(e, s), fuel);
  }
}
