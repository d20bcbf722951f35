/**
 * The reservation table of the cooperative planner
 * (centralized/coop_astar/coop_astar.py:60-62, 145-150) described as a
 * function of the paths committed so far, and the separation every committed
 * path keeps from the paths committed before it.
 */
module Reservations {
  import opened Wrappers
  import opened StateModel
  import opened CoopEnv

  /** Each step of the path is a wait or a move to a 4-neighbour. */
  ghost predicate UnitSteps(p: seq<State>)
    decreases |p|
  {
    |p| < 2 || (UnitSteps(p[..|p| - 1]) && Manhattan(p[|p| - 2].location, p[|p| - 1].location) <= 1)
  }

  lemma {:induction false} UnitStepsIntro(p: seq<State>)
    requires forall k :: 0 < k < |p| ==> Manhattan(p[k - 1].location, p[k].location) <= 1
    ensures UnitSteps(p)
    decreases |p|
  {
    if |p| >= 2 {
      var q := p[..|p| - 1];
      forall k | 0 < k < |q| ensures Manhattan(q[k - 1].location, q[k].location) <= 1 {
        assert q[k - 1] == p[k - 1] && q[k] == p[k];
      }
      UnitStepsIntro(q);
    }
  }

  lemma {:induction false} UnitStepsAt(p: seq<State>, k: int)
    requires UnitSteps(p) && 0 < k < |p|
    ensures Manhattan(p[k - 1].location, p[k].location) <= 1
    decreases |p|
  {
    if k < |p| - 1 {
      var q := p[..|p| - 1];
      UnitStepsAt(q, k);
      assert q[k - 1] == p[k - 1] && q[k] == p[k];
    }
  }

  /** A committed path: state k is at time k, and each step is a wait or a unit move. */
  ghost predicate Planned(p: seq<State>) {
    && |p| > 0
    && (forall k :: 0 <= k < |p| ==> p[k].time == k)
    && UnitSteps(p)
  }

  ghost predicate AllPlanned(ps: seq<seq<State>>) {
    forall i :: 0 <= i < |ps| ==> Planned(ps[i])
  }

  function PathStates(p: seq<State>): set<State> {
    set s | s in p
  }

  /** The consecutive transitions of a path. */
  function PathTransitions(p: seq<State>): set<Transition> {
    if |p| < 2 then {} else PathTransitions(p[..|p| - 1]) + {Transition(p[|p| - 2], p[|p| - 1])}
  }

  /** Extending a path by one state adds that state. */
  lemma PathStatesExtend(p: seq<State>, i: int)
    requires 0 <= i < |p|
    ensures PathStates(p[..i + 1]) == PathStates(p[..i]) + {p[i]}
  {
    assert p[..i + 1] == p[..i] + [p[i]];
  }

  /** Extending a path by one state adds one transition: the step into that state. */
  lemma PathTransitionsExtend(p: seq<State>, i: int)
    requires 1 <= i < |p|
    ensures PathTransitions(p[..i + 1]) == PathTransitions(p[..i]) + {Transition(p[i - 1], p[i])}
  {
    assert p[..i + 1][..i] == p[..i];
  }

  /** The transitions of a path are exactly its consecutive steps. */
  lemma {:induction false} PathTransitionsMembers(p: seq<State>, t: Transition)
    ensures t in PathTransitions(p) <==> exists k :: 1 <= k < |p| && t == Transition(p[k - 1], p[k])
  {
    if |p| >= 2 {
      var q := p[..|p| - 1];
      PathTransitionsMembers(q, t);
      if exists k :: 1 <= k < |q| && t == Transition(q[k - 1], q[k]) {
        var k :| 1 <= k < |q| && t == Transition(q[k - 1], q[k]);
        assert t == Transition(p[k - 1], p[k]);
      }
      if exists k :: 1 <= k < |p| && t == Transition(p[k - 1], p[k]) {
        var k :| 1 <= k < |p| && t == Transition(p[k - 1], p[k]);
        if k < |p| - 1 {
          assert t == Transition(q[k - 1], q[k]);
        }
      }
    }
  }

  /** `agent_obstacles` (its states) after committing `ps`. */
  function StatesOf(ps: seq<seq<State>>): set<State> {
    if ps == [] then {} else StatesOf(ps[..|ps| - 1]) + PathStates(ps[|ps| - 1])
  }

  /** `agent_obstacles` (its transitions) after committing `ps`. */
  function TransitionsOf(ps: seq<seq<State>>): set<Transition> {
    if ps == [] then {} else TransitionsOf(ps[..|ps| - 1]) + PathTransitions(ps[|ps| - 1])
  }

  /** `end_obstacles` after committing `ps`. */
  function EndsOf(ps: seq<seq<State>>): set<State> {
    if ps == [] then {}
    else EndsOf(ps[..|ps| - 1]) + (if ps[|ps| - 1] == [] then {} else {Last(ps[|ps| - 1])})
  }

  /** `max_t` after committing `ps`, starting from 0. */
  function Horizon(ps: seq<seq<State>>): (h: int)
    ensures 0 <= h
  {
    if ps == [] then 0
    else
      var h := Horizon(ps[..|ps| - 1]);
      if ps[|ps| - 1] == [] || Last(ps[|ps| - 1]).time <= h then h else Last(ps[|ps| - 1]).time
  }

  /** The environment a search sees after `ps` were committed, for an agent whose goal is `goal`. */
  function TableEnv(dim0: int, dim1: int, obstacles: set<Cell>, ps: seq<seq<State>>, goal: Location): SearchEnv {
    SearchEnv(dim0, dim1, obstacles, StatesOf(ps), TransitionsOf(ps), EndsOf(ps), Horizon(ps), goal)
  }

  lemma {:induction false} InStatesOf(ps: seq<seq<State>>, i: int, s: State)
    requires 0 <= i < |ps| && s in ps[i]
    ensures s in StatesOf(ps)
    decreases |ps|
  {
    if i < |ps| - 1 {
      assert ps[..|ps| - 1][i] == ps[i];
      InStatesOf(ps[..|ps| - 1], i, s);
    }
  }

  lemma {:induction false} InTransitionsOf(ps: seq<seq<State>>, i: int, t: Transition)
    requires 0 <= i < |ps| && t in PathTransitions(ps[i])
    ensures t in TransitionsOf(ps)
    decreases |ps|
  {
    if i < |ps| - 1 {
      assert ps[..|ps| - 1][i] == ps[i];
      InTransitionsOf(ps[..|ps| - 1], i, t);
    }
  }

  lemma {:induction false} InEndsOf(ps: seq<seq<State>>, i: int)
    requires 0 <= i < |ps| && |ps[i]| > 0
    ensures Last(ps[i]) in EndsOf(ps)
    decreases |ps|
  {
    if i < |ps| - 1 {
      assert ps[..|ps| - 1][i] == ps[i];
      InEndsOf(ps[..|ps| - 1], i);
    }
  }

  /** `max_t` bounds the final time of every committed path. */
  lemma {:induction false} HorizonBounds(ps: seq<seq<State>>, i: int)
    requires 0 <= i < |ps| && |ps[i]| > 0
    ensures Last(ps[i]).time <= Horizon(ps)
    decreases |ps|
  {
    if i < |ps| - 1 {
      assert ps[..|ps| - 1][i] == ps[i];
      HorizonBounds(ps[..|ps| - 1], i);
    }
  }

  /** Committing one more path adds its states, transitions and end state, and raises `max_t`. */
  lemma CommitGrowsTable(ps: seq<seq<State>>, p: seq<State>)
    requires |p| > 0
    ensures StatesOf(ps + [p]) == StatesOf(ps) + PathStates(p)
    ensures TransitionsOf(ps + [p]) == TransitionsOf(ps) + PathTransitions(p)
    ensures EndsOf(ps + [p]) == EndsOf(ps) + {Last(p)}
    ensures Horizon(ps + [p]) == if Last(p).time <= Horizon(ps) then Horizon(ps) else Last(p).time
  {
    assert (ps + [p])[..|ps|] == ps;
  }

  // ---------------------------------------------------------------------
  // What a later path keeps clear of an earlier one.

  /** No state of the later path after its start is a state of the earlier path. */
  ghost predicate NoSharedState(earlier: seq<State>, later: seq<State>) {
    forall k :: 1 <= k < |later| ==> later[k] !in earlier
  }

  /** No step of the later path reverses a transition of the earlier path. */
  ghost predicate NoReversedTransition(earlier: seq<State>, later: seq<State>) {
    forall k :: 1 <= k < |later| && later[k].time == later[k - 1].time + 1 ==>
      Transition(later[k - 1], later[k]).Reverse() !in PathTransitions(earlier)
  }

  /** The later path reaches the earlier path's final cell only before the earlier agent parks there. */
  ghost predicate AvoidsParked(earlier: seq<State>, later: seq<State>)
    requires |earlier| > 0
  {
    forall k :: 1 <= k < |later| && later[k].location == Last(earlier).location ==>
      later[k].time < Last(earlier).time
  }

  /**
   * The look-ahead at the later agent's goal: once the later agent has parked
   * at its final cell, the earlier path is there again only at times beyond
   * the horizon known when the later path was planned.
   */
  ghost predicate GoalClearUntil(earlier: seq<State>, later: seq<State>, horizon: int)
    requires |later| > 0
  {
    forall m ::
      (0 <= m < |earlier| && earlier[m].location == Last(later).location && Last(later).time <= earlier[m].time)
      ==> horizon < earlier[m].time
  }

  ghost predicate Yields(earlier: seq<State>, later: seq<State>, horizon: int)
    requires |earlier| > 0 && |later| > 0
  {
    NoSharedState(earlier, later) && NoReversedTransition(earlier, later)
    && AvoidsParked(earlier, later) && GoalClearUntil(earlier, later, horizon)
  }

  /** The path yields to every path of `earlier`, all with the same horizon. */
  ghost predicate YieldsToAll(earlier: seq<seq<State>>, p: seq<State>, horizon: int)
    requires |p| > 0
    decreases |earlier|
  {
    earlier == []
    || (&& YieldsToAll(earlier[..|earlier| - 1], p, horizon)
        && |Last(earlier)| > 0
        && Yields(Last(earlier), p, horizon))
  }

  lemma {:induction false} YieldsToAllAt(earlier: seq<seq<State>>, p: seq<State>, horizon: int, i: int)
    requires |p| > 0 && YieldsToAll(earlier, p, horizon) && 0 <= i < |earlier|
    ensures |earlier[i]| > 0 && Yields(earlier[i], p, horizon)
    decreases |earlier|
  {
    if i < |earlier| - 1 {
      assert earlier[..|earlier| - 1][i] == earlier[i];
      YieldsToAllAt(earlier[..|earlier| - 1], p, horizon, i);
    }
  }

  lemma {:induction false} YieldsToAllIntro(earlier: seq<seq<State>>, p: seq<State>, horizon: int)
    requires |p| > 0
    requires forall i :: 0 <= i < |earlier| ==> |earlier[i]| > 0 && Yields(earlier[i], p, horizon)
    ensures YieldsToAll(earlier, p, horizon)
    decreases |earlier|
  {
    if earlier != [] {
      var prefix := earlier[..|earlier| - 1];
      assert forall i :: 0 <= i < |prefix| ==> prefix[i] == earlier[i];
      YieldsToAllIntro(prefix, p, horizon);
    }
  }

  /**
   * Every committed path is planned and yields to every path committed
   * before it, with the horizon of its own planning time.
   */
  ghost predicate Separated(ps: seq<seq<State>>)
    decreases |ps|, 1
  {
    ps == [] || SeparatedLast(ps)
  }

  ghost predicate SeparatedLast(ps: seq<seq<State>>)
    requires ps != []
    decreases |ps|, 0
  {
    && Separated(ps[..|ps| - 1])
    && Planned(Last(ps))
    && YieldsToAll(ps[..|ps| - 1], Last(ps), Horizon(ps[..|ps| - 1]))
  }

  /** Every path of a separated plan is planned. */
  lemma {:induction false} SeparatedPlanned(ps: seq<seq<State>>)
    requires Separated(ps)
    ensures AllPlanned(ps)
    decreases |ps|
  {
    if ps != [] {
      var prefix := ps[..|ps| - 1];
      SeparatedPlanned(prefix);
      assert forall i :: 0 <= i < |prefix| ==> prefix[i] == ps[i];
    }
  }

  /** Separation relates every ordered pair of committed paths. */
  lemma {:induction false} SeparatedPair(ps: seq<seq<State>>, i: int, j: int)
    requires Separated(ps) && 0 <= i < j < |ps|
    ensures |ps[i]| > 0 && |ps[j]| > 0 && Yields(ps[i], ps[j], Horizon(ps[..j]))
    decreases |ps|
  {
    var prefix := ps[..|ps| - 1];
    if j < |ps| - 1 {
      assert prefix[i] == ps[i] && prefix[j] == ps[j] && prefix[..j] == ps[..j];
      SeparatedPair(prefix, i, j);
    } else {
      YieldsToAllAt(prefix, Last(ps), Horizon(prefix), i);
    }
  }

  /** Step k of the path passes the checks the search made against `e` when it expanded step k - 1. */
  ghost predicate AdmittedStep(e: SearchEnv, p: seq<State>, k: int)
    requires 1 <= k < |p|
  {
    && StateValid(e, p[k])
    && (p[k].time == p[k - 1].time + 1 && p[k].location != p[k - 1].location ==> TransitionValid(e, p[k - 1], p[k]))
  }

  /** The path passes every check the search made against `e`. */
  ghost predicate AdmissiblePath(e: SearchEnv, p: seq<State>)
    decreases |p|
  {
    |p| < 2 || (AdmissiblePath(e, p[..|p| - 1]) && AdmittedStep(e, p, |p| - 1))
  }

  lemma {:induction false} AdmissibleAt(e: SearchEnv, p: seq<State>, k: int)
    requires AdmissiblePath(e, p) && 1 <= k < |p|
    ensures AdmittedStep(e, p, k)
    decreases |p|
  {
    if k < |p| - 1 {
      var q := p[..|p| - 1];
      AdmissibleAt(e, q, k);
      assert q[k] == p[k] && q[k - 1] == p[k - 1];
    }
  }

  lemma {:induction false} AdmissibleIntro(e: SearchEnv, p: seq<State>)
    requires forall k :: 1 <= k < |p| ==> AdmittedStep(e, p, k)
    ensures AdmissiblePath(e, p)
    decreases |p|
  {
    if |p| >= 2 {
      var q := p[..|p| - 1];
      forall k | 1 <= k < |q| ensures AdmittedStep(e, q, k) {
        assert q[k] == p[k] && q[k - 1] == p[k - 1];
        assert AdmittedStep(e, p, k);
      }
      AdmissibleIntro(e, q);
    }
  }

  lemma CommitYieldsStates(ps: seq<seq<State>>, e: SearchEnv, p: seq<State>, i: int)
    requires 0 <= i < |ps| && e.reserved == StatesOf(ps) && AdmissiblePath(e, p)
    ensures NoSharedState(ps[i], p)
  {
    forall k | 1 <= k < |p| ensures p[k] !in ps[i] {
      AdmissibleAt(e, p, k);
      if p[k] in ps[i] {
        InStatesOf(ps, i, p[k]);
      }
    }
  }

  lemma CommitYieldsTransitions(ps: seq<seq<State>>, e: SearchEnv, p: seq<State>, i: int)
    requires 0 <= i < |ps| && e.used == TransitionsOf(ps) && AdmissiblePath(e, p)
    requires NoSharedState(ps[i], p)
    ensures NoReversedTransition(ps[i], p)
  {
    forall k | 1 <= k < |p| && p[k].time == p[k - 1].time + 1
      ensures Transition(p[k - 1], p[k]).Reverse() !in PathTransitions(ps[i])
    {
      var r := Transition(p[k - 1], p[k]).Reverse();
      AdmissibleAt(e, p, k);
      if r in PathTransitions(ps[i]) {
        InTransitionsOf(ps, i, r);
        PathTransitionsMembers(ps[i], r);
      }
    }
  }

  lemma CommitYieldsParked(ps: seq<seq<State>>, e: SearchEnv, p: seq<State>, i: int)
    requires 0 <= i < |ps| && |ps[i]| > 0 && e.parked == EndsOf(ps) && AdmissiblePath(e, p)
    ensures AvoidsParked(ps[i], p)
  {
    InEndsOf(ps, i);
    forall k | 1 <= k < |p| && p[k].location == Last(ps[i]).location
      ensures p[k].time < Last(ps[i]).time
    {
      AdmissibleAt(e, p, k);
      assert !ParkedBefore(e, p[k]);
    }
  }

  lemma CommitYieldsGoal(ps: seq<seq<State>>, e: SearchEnv, p: seq<State>, i: int)
    requires 0 <= i < |ps| && |p| > 0 && e.reserved == StatesOf(ps) && e.maxT == Horizon(ps)
    requires e.goal == Last(p).location && !GoalReservedLater(e, Last(p))
    ensures GoalClearUntil(ps[i], p, Horizon(ps))
  {
    forall m | 0 <= m < |ps[i]| && ps[i][m].location == Last(p).location && Last(p).time <= ps[i][m].time
      ensures Horizon(ps) < ps[i][m].time
    {
      InStatesOf(ps, i, ps[i][m]);
      assert State(ps[i][m].time, Last(p).location) == ps[i][m];
    }
  }

  /**
   * The commit step keeps the separation: a path admitted by the search
   * against the table of `ps` yields to every path of `ps`.
   */
  lemma CommitKeepsSeparated(ps: seq<seq<State>>, e: SearchEnv, p: seq<State>)
    requires Separated(ps) && Planned(p)
    requires e.reserved == StatesOf(ps) && e.used == TransitionsOf(ps)
    requires e.parked == EndsOf(ps) && e.maxT == Horizon(ps)
    requires e.goal == Last(p).location && AdmissiblePath(e, p) && !GoalReservedLater(e, Last(p))
    ensures Separated(ps + [p])
  {
    var qs := ps + [p];
    assert qs[..|ps|] == ps;
    SeparatedPlanned(ps);
    forall i | 0 <= i < |ps|
      ensures |ps[i]| > 0 && Yields(ps[i], p, Horizon(ps))
    {
      CommitYieldsStates(ps, e, p, i);
      CommitYieldsTransitions(ps, e, p, i);
      CommitYieldsParked(ps, e, p, i);
      CommitYieldsGoal(ps, e, p, i);
    }
    YieldsToAllIntro(ps, p, Horizon(ps));
  }

  // ---------------------------------------------------------------------
  // What the separation means for the executed plan.

  /** Where an agent is at time t: its path state, and after its last state its final cell. */
  function Position(p: seq<State>, t: nat): Location
    requires |p| > 0
  {
    if t < |p| then p[t].location else Last(p).location
  }

  /**
   * Two agents of a separated plan never end in the same cell: the later one
   * would either reach it after the earlier one parked there, or park there
   * while the earlier one arrives no later than the horizon.
   */
  lemma FinalCellsDistinct(ps: seq<seq<State>>, i: int, j: int)
    requires Separated(ps) && 0 <= i < j < |ps|
    ensures |ps[i]| > 0 && |ps[j]| > 0 && Last(ps[i]).location != Last(ps[j]).location
  {
    var a, b := ps[i], ps[j];
    SeparatedPlanned(ps);
    SeparatedPair(ps, i, j);
    assert ps[..j][i] == a;
    HorizonBounds(ps[..j], i);
    assert a[|a| - 1].time == |a| - 1 && b[|b| - 1].time == |b| - 1;
  }

  lemma VertexCollisionFreeOrdered(ps: seq<seq<State>>, i: int, j: int, t: nat)
    requires Separated(ps) && 0 <= i < j < |ps| && 1 <= t
    ensures |ps[i]| > 0 && |ps[j]| > 0 && Position(ps[i], t) != Position(ps[j], t)
  {
    var a, b := ps[i], ps[j];
    SeparatedPlanned(ps);
    SeparatedPair(ps, i, j);
    if t < |a| && t < |b| {
      assert b[t] !in a;
      assert a[t].time == t == b[t].time;
    } else if t < |b| {
      assert a[|a| - 1].time == |a| - 1;
    } else if t < |a| {
      assert ps[..j][i] == a;
      HorizonBounds(ps[..j], i);
      assert a[|a| - 1].time == |a| - 1 && b[|b| - 1].time == |b| - 1 && a[t].time == t;
    } else {
      FinalCellsDistinct(ps, i, j);
    }
  }

  /**
   * No two agents of a separated plan are ever in the same cell at the same
   * time after time 0, counting an agent that has finished as staying at its
   * final cell.
   */
  lemma CollisionFree(ps: seq<seq<State>>, i: int, j: int, t: nat)
    requires Separated(ps) && 0 <= i < |ps| && 0 <= j < |ps| && i != j && 1 <= t
    ensures |ps[i]| > 0 && |ps[j]| > 0 && Position(ps[i], t) != Position(ps[j], t)
  {
    if i < j {
      VertexCollisionFreeOrdered(ps, i, j, t);
    } else {
      VertexCollisionFreeOrdered(ps, j, i, t);
    }
  }

  /** No two agents of a separated plan swap cells between times t-1 and t. */
  lemma NoHeadOnSwap(ps: seq<seq<State>>, i: int, j: int, t: nat)
    requires Separated(ps) && 0 <= i < j < |ps| && 1 <= t < |ps[i]| && t < |ps[j]|
    ensures !(ps[i][t - 1].location == ps[j][t].location && ps[i][t].location == ps[j][t - 1].location)
  {
    var a, b := ps[i], ps[j];
    SeparatedPlanned(ps);
    SeparatedPair(ps, i, j);
    PathTransitionsMembers(a, Transition(a[t - 1], a[t]));
  }
}
