/**
 * The time-expanded state space of the cooperative planner
 * (centralized/coop_astar/coop_astar.py): grid locations, (time, location)
 * states and transitions between two time-adjacent states.
 * Python's hand-written __eq__/__hash__ become structural equality of datatypes.
 */
module StateModel {
  import opened Wrappers

  /** A grid cell (x, y). */
  datatype Location = Location(x: int, y: int)

  /** A location at a time step. */
  datatype State = State(time: int, location: Location)

  /** `is_equal_except_time`: two states are at the same cell, whatever their times. */
  predicate SameLocation(a: State, b: State) {
    a.location == b.location
  }

  /** A directed move between two states; the constructor below checks the time step. */
  datatype Transition = Transition(state1: State, state2: State) {

    /** The invariant the source's constructor enforces: `state2` is one step after `state1`. */
    predicate TimeAdjacent() {
      state2.time == state1.time + 1
    }

    /**
     * `reverse`: the opposite-direction move over the same time pair.
     * It is again a well-formed transition, and reversing is an involution.
     */
    function Reverse(): (r: Transition)
      requires TimeAdjacent()
      ensures r.TimeAdjacent()
      ensures r.state1.time == state1.time && r.state2.time == state2.time
      ensures r.state1.location == state2.location && r.state2.location == state1.location
    {
      Transition(State(state1.time, state2.location), State(state2.time, state1.location))
    }
  }

  /** The error raised by the constructor of a transition whose states are not one step apart. */
  datatype TransitionError = InvalidTransition(from: State, to: State)

  /** `Transition(state_1, state_2)`: fails unless `state_2.time == state_1.time + 1`. */
  function NewTransition(s1: State, s2: State): (r: Result<Transition, TransitionError>)
    ensures r.Success? <==> s2.time == s1.time + 1
    ensures r.Success? ==> r.value.state1 == s1 && r.value.state2 == s2 && r.value.TimeAdjacent()
    ensures r.Failure? ==> r.error == InvalidTransition(s1, s2)
  {
    if s1.time != s2.time - 1 then Failure(InvalidTransition(s1, s2))
    else Success(Transition(s1, s2))
  }

  /** Reversing twice gives back the original transition. */
  lemma ReverseInvolution(t: Transition)
    requires t.TimeAdjacent()
    ensures t.Reverse().Reverse() == t
  {
  }

  /** A wait (both states at one cell) is its own reverse; a move never is. */
  lemma ReverseFixedIffWait(t: Transition)
    requires t.TimeAdjacent()
    ensures t.Reverse() == t <==> t.state1.location == t.state2.location
  {
  }

  /** One `{t, x, y}` record of a schedule. */
  datatype Record = Record(t: int, x: int, y: int)

  function ToRecord(s: State): Record {
    Record(s.time, s.location.x, s.location.y)
  }

  /** The schedule entry of a path: its states as records, in path order. */
  function Records(path: seq<State>): (r: seq<Record>)
    ensures |r| == |path|
    ensures forall i :: 0 <= i < |path| ==> r[i] == ToRecord(path[i])
  {
    seq(|path|, i requires 0 <= i < |path| => ToRecord(path[i]))
  }

}
