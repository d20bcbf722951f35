/**
 * Uniform-cost best-first search (centralized/cbs/dijkstra.py).
 *
 * The environment the search consults (`agent_dict`, `is_at_goal`,
 * `get_neighbors`) is passed in as the start state, a goal test and a
 * successor function; the search is generic in the state type.  Every step
 * costs 1.  The source loops until its open set is empty, which never
 * happens on an infinite time-expanded graph without a reachable goal, so
 * the model carries a `fuel` bound on the number of expansions and reports
 * `OutOfFuel` when it runs out.
 */
module Dijkstra {
  import opened Wrappers

  datatype SearchResult<S> = Found(path: seq<S>) | NoPath | OutOfFuel

  /** `list.reverse()`: element i of the result is element |s|-1-i of the input. */
  function Reverse<T>(s: seq<T>): (r: seq<T>)
    ensures |r| == |s|
    ensures forall i :: 0 <= i < |s| ==> r[i] == s[|s| - 1 - i]
  {
    if |s| == 0 then [] else [s[|s| - 1]] + Reverse(s[..|s| - 1])
  }

  /** Each state after the first is a successor of the one before it. */
  ghost predicate IsWalk<S>(neighbors: S -> seq<S>, w: seq<S>) {
    forall i :: 0 < i < |w| ==> w[i] in neighbors(w[i - 1])
  }

  ghost predicate WalkFrom<S>(neighbors: S -> seq<S>, start: S, w: seq<S>) {
    |w| > 0 && w[0] == start && IsWalk(neighbors, w)
  }

  /** `came_from` forms a tree rooted at the start, along successor edges, with cost one per edge. */
  ghost predicate Tree<S>(neighbors: S -> seq<S>, start: S, cameFrom: map<S, S>, cost: map<S, nat>) {
    && start in cost && cost[start] == 0
    && (forall s {:trigger cameFrom[s]} :: s in cameFrom ==>
          s in cost && cameFrom[s] in cost && s in neighbors(cameFrom[s]) && cost[s] == cost[cameFrom[s]] + 1)
    && (forall s {:trigger s in cameFrom} :: s in cost && s != start ==> s in cameFrom)
  }

  /** Expanded states cost at most `lo`; open states between `lo` and `lo + 1`. */
  ghost predicate Layered<S>(open: set<S>, cost: map<S, nat>, lo: nat) {
    && open <= cost.Keys
    && (forall s :: s in open ==> lo <= cost[s])
    && (forall s :: s in cost ==> cost[s] <= lo + 1)
    && (forall s :: s in cost && s !in open ==> cost[s] <= lo)
  }

  /** Every expanded state failed the goal test. */
  ghost predicate ClosedNotGoal<S>(isGoal: S -> bool, open: set<S>, cost: map<S, nat>) {
    forall s :: s in cost && s !in open ==> !isGoal(s)
  }

  /** Every successor of an expanded state has been discovered. */
  ghost predicate ClosedExpanded<S>(neighbors: S -> seq<S>, open: set<S>, cost: map<S, nat>) {
    forall s :: s in cost && s !in open ==> forall n :: n in neighbors(s) ==> n in cost
  }

  /** No walk from the start reaches a discovered state in fewer steps than its recorded cost. */
  ghost predicate CostsAreLowerBounds<S(!new)>(neighbors: S -> seq<S>, start: S, cost: map<S, nat>) {
    forall w :: WalkFrom(neighbors, start, w) && Last(w) in cost ==> cost[Last(w)] <= |w| - 1
  }

  lemma WalkPrefix<S>(neighbors: S -> seq<S>, start: S, w: seq<S>, k: nat)
    requires WalkFrom(neighbors, start, w) && 0 < k <= |w|
    ensures WalkFrom(neighbors, start, w[..k])
  {
  }

  /**
   * A walk that ends at an undiscovered state takes more steps than any lower
   * bound `lo` on the costs of the open states, such as the cost of the open
   * state about to be expanded.
   */
  lemma {:induction false} UndiscoveredIsFar<S(!new)>(neighbors: S -> seq<S>, start: S, open: set<S>,
                                               cost: map<S, nat>, lo: nat, w: seq<S>)
    requires start in cost && open <= cost.Keys
    requires ClosedExpanded(neighbors, open, cost) && CostsAreLowerBounds(neighbors, start, cost)
    requires forall s :: s in open ==> lo <= cost[s]
    requires WalkFrom(neighbors, start, w) && Last(w) !in cost
    ensures lo + 1 <= |w| - 1
    decreases |w|
  {
    var p := w[..|w| - 1];
    WalkPrefix(neighbors, start, w, |w| - 1);
    var z := Last(p);
    assert Last(w) in neighbors(z);
    if z !in cost {
      UndiscoveredIsFar(neighbors, start, open, cost, lo, p);
    } else {
      assert z in open;
      assert cost[z] <= |p| - 1;
    }
  }

  /** Once the open set is empty, every walk from the start stays among the discovered states. */
  lemma {:induction false} ExhaustedCoversWalks<S>(neighbors: S -> seq<S>, start: S, cost: map<S, nat>, w: seq<S>)
    requires start in cost && ClosedExpanded(neighbors, {}, cost)
    requires WalkFrom(neighbors, start, w)
    ensures Last(w) in cost
    decreases |w|
  {
    if |w| > 1 {
      var p := w[..|w| - 1];
      WalkPrefix(neighbors, start, w, |w| - 1);
      ExhaustedCoversWalks(neighbors, start, cost, p);
      assert Last(w) in neighbors(Last(p));
    }
  }

  /** `min(open_set, key=cost_so_far)`: some open state of least cost; ties are broken arbitrarily. */
  method MinByCost<S>(open: set<S>, cost: map<S, nat>) returns (m: S)
    requires open != {} && open <= cost.Keys
    ensures m in open && forall s :: s in open ==> cost[m] <= cost[s]
  {
    m :| m in open;
    var rest := open - {m};
    while rest != {}
      invariant rest <= open && m in open && m !in rest
      invariant forall s :: s in open && s !in rest ==> cost[m] <= cost[s]
      decreases rest
    {
      var s :| s in rest;
      if cost[s] < cost[m] {
        m := s;
      }
      rest := rest - {s};
    }
  }

  /**
   * `reconstruct_path`: follow `came_from` back from `current` to a state
   * with no predecessor, then reverse.  The ghost `cost` decreases along
   * `came_from` and so bounds the walk back.
   */
  method ReconstructPath<S>(cameFrom: map<S, S>, current: S, ghost cost: map<S, nat>) returns (path: seq<S>)
    requires current in cost
    requires forall s :: s in cameFrom ==> s in cost && cameFrom[s] in cost && cost[s] == cost[cameFrom[s]] + 1
    ensures |path| > 0 && Last(path) == current
    ensures path[0] in cost && path[0] !in cameFrom
    ensures forall i :: 0 < i < |path| ==> path[i] in cameFrom && cameFrom[path[i]] == path[i - 1]
    ensures |path| + cost[path[0]] == cost[current] + 1
  {
    var total := [current];
    var cur := current;
    while cur in cameFrom
      invariant cur in cost && |total| > 0 && total[0] == current && Last(total) == cur
      invariant forall i :: 0 <= i < |total| - 1 ==> total[i] in cameFrom && cameFrom[total[i]] == total[i + 1]
      invariant |total| + cost[cur] == cost[current] + 1
      decreases cost[cur]
    {
      cur := cameFrom[cur];
      total := total + [cur];
    }
    path := Reverse(total);
    forall i | 0 < i < |path|
      ensures path[i] in cameFrom && cameFrom[path[i]] == path[i - 1]
    {
      var j := |total| - i;
      assert path[i] == total[j - 1] && path[i - 1] == total[j - 1 + 1];
    }
  }

  /** Some walk from the start of at most `n` states ends at `s`. */
  ghost predicate ReachableWithin<S(!new)>(neighbors: S -> seq<S>, start: S, s: S, n: nat) {
    exists w :: WalkFrom(neighbors, start, w) && Last(w) == s && |w| <= n
  }

  /** A walk from the start of at most `n` states that ends at `s`. */
  ghost function WalkWithin<S(!new)>(neighbors: S -> seq<S>, start: S, s: S, n: nat): (w: seq<S>)
    requires ReachableWithin(neighbors, start, s, n)
    ensures WalkFrom(neighbors, start, w) && Last(w) == s && |w| <= n
  {
    var w :| WalkFrom(neighbors, start, w) && Last(w) == s && |w| <= n; w
  }

  /**
   * Every discovered state is reachable from the start along its `came_from`
   * links, in as many steps as its recorded cost.
   */
  lemma {:induction false} TreeReachable<S(!new)>(neighbors: S -> seq<S>, start: S, cameFrom: map<S, S>,
                                                  cost: map<S, nat>, s: S)
    requires Tree(neighbors, start, cameFrom, cost) && s in cost
    ensures ReachableWithin(neighbors, start, s, cost[s] + 1)
    decreases cost[s]
  {
    if s == start {
      assert WalkFrom(neighbors, start, [start]);
    } else {
      var p := cameFrom[s];
      TreeReachable(neighbors, start, cameFrom, cost, p);
      var w :| WalkFrom(neighbors, start, w) && Last(w) == p && |w| <= cost[p] + 1;
      assert WalkFrom(neighbors, start, w + [s]);
    }
  }

  /**
   * States are expanded nearest first: every walk to a goal, whether the goal
   * is still open or undiscovered, takes at least `lo` steps, where `lo` is
   * the cost of the state expanded last.
   */
  lemma GoalWalksReachLayer<S(!new)>(isGoal: S -> bool, neighbors: S -> seq<S>, start: S, open: set<S>,
                                     cost: map<S, nat>, lo: nat, w: seq<S>)
    requires start in cost && Layered(open, cost, lo)
    requires ClosedNotGoal(isGoal, open, cost) && ClosedExpanded(neighbors, open, cost)
    requires CostsAreLowerBounds(neighbors, start, cost)
    requires WalkFrom(neighbors, start, w) && isGoal(Last(w))
    ensures lo + 1 <= |w|
  {
    if Last(w) !in cost {
      UndiscoveredIsFar(neighbors, start, open, cost, lo, w);
    }
  }

  /**
   * `Dijkstra.search`.  A returned path is a walk from the start through
   * successor states that ends at a goal, and no walk to a goal is shorter.
   * `NoPath` is returned only when the open set is exhausted, and then no walk
   * from the start reaches a goal.  `OutOfFuel` is returned only after `fuel`
   * expansions, and then `closed` holds the `fuel` states expanded: none is
   * a goal, each is reached from the start by a walk of at most `layer`
   * states, and every walk to a goal has at least `layer` states.  A start that is itself a
   * goal is returned alone.
   */
  method Search<S(==,!new)>(start: S, isGoal: S -> bool, neighbors: S -> seq<S>, fuel: nat)
    returns (r: SearchResult<S>, ghost closed: set<S>, ghost layer: nat)
    ensures r.Found? ==> WalkFrom(neighbors, start, r.path) && isGoal(Last(r.path))
    ensures r.Found? ==> forall w :: WalkFrom(neighbors, start, w) && isGoal(Last(w)) ==> |r.path| <= |w|
    ensures r.NoPath? ==> forall w :: WalkFrom(neighbors, start, w) ==> !isGoal(Last(w))
    ensures r.OutOfFuel? ==> |closed| == fuel
    ensures r.OutOfFuel? ==> forall s :: s in closed ==> !isGoal(s) && ReachableWithin(neighbors, start, s, layer)
    ensures r.OutOfFuel? ==> forall w :: WalkFrom(neighbors, start, w) && isGoal(Last(w)) ==> layer <= |w|
    ensures isGoal(start) && fuel > 0 ==> r == Found([start])
  {
    var open := {start};
    var cameFrom: map<S, S> := map[];
    var cost: map<S, nat> := map[start := 0];
    ghost var lo: nat := 0;
    var budget: nat := fuel;
    closed, layer := {}, 0;
    while open != {}
      invariant Tree(neighbors, start, cameFrom, cost)
      invariant Layered(open, cost, lo)
      invariant ClosedNotGoal(isGoal, open, cost)
      invariant ClosedExpanded(neighbors, open, cost)
      invariant CostsAreLowerBounds(neighbors, start, cost)
      invariant budget <= fuel
      invariant budget == fuel ==> open == {start}
      invariant budget < fuel ==> start !in open
      invariant |closed| == fuel - budget
      invariant forall s :: s in closed ==> s in cost && s !in open
      decreases budget
    {
      if budget == 0 {
        assert fuel > 0 ==> start !in open;
        forall s | s in closed
          ensures ReachableWithin(neighbors, start, s, lo + 1)
        {
          TreeReachable(neighbors, start, cameFrom, cost, s);
        }
        forall w | WalkFrom(neighbors, start, w) && isGoal(Last(w))
          ensures lo + 1 <= |w|
        {
          GoalWalksReachLayer(isGoal, neighbors, start, open, cost, lo, w);
        }
        return OutOfFuel, closed, lo + 1;
      }
      budget := budget - 1;
      var current := MinByCost(open, cost);
      if isGoal(current) {
        var path := ReconstructPath(cameFrom, current, cost);
        FoundIsShortest(isGoal, neighbors, start, open, cameFrom, cost, current, path);
        return Found(path), closed, layer;
      }
      ghost var c := cost[current];
      closed := closed + {current};
      open, cameFrom, cost := ExpandState(isGoal, neighbors, start, lo, current, open, cameFrom, cost);
      lo := c;
    }
    forall w | WalkFrom(neighbors, start, w)
      ensures !isGoal(Last(w))
    {
      ExhaustedCoversWalks(neighbors, start, cost, w);
    }
    assert WalkFrom(neighbors, start, [start]);
    return NoPath, closed, layer;
  }

  /**
   * One expansion (lines 17-28 of the source): remove `current` from the open
   * set and record every successor not seen before with cost one more than
   * `current`.  A successor already known never gets a lower cost here,
   * because every known cost is at most one more than the least open cost.
   */
  method ExpandState<S(==,!new)>(ghost isGoal: S -> bool, neighbors: S -> seq<S>, start: S, ghost lo: nat,
                                 current: S, open0: set<S>, cameFrom0: map<S, S>, cost0: map<S, nat>)
    returns (open: set<S>, cameFrom: map<S, S>, cost: map<S, nat>)
    requires Tree(neighbors, start, cameFrom0, cost0) && Layered(open0, cost0, lo)
    requires ClosedNotGoal(isGoal, open0, cost0) && ClosedExpanded(neighbors, open0, cost0)
    requires CostsAreLowerBounds(neighbors, start, cost0)
    requires current in open0 && !isGoal(current) && forall s :: s in open0 ==> cost0[current] <= cost0[s]
    requires start in open0 ==> current == start
    ensures Tree(neighbors, start, cameFrom, cost) && Layered(open, cost, cost0[current])
    ensures ClosedNotGoal(isGoal, open, cost) && ClosedExpanded(neighbors, open, cost)
    ensures CostsAreLowerBounds(neighbors, start, cost)
    ensures start !in open
    ensures cost0.Keys <= cost.Keys && current in cost && current !in open
    ensures forall s :: s in open ==> s in open0 || s !in cost0
  {
    open, cameFrom, cost := open0 - {current}, cameFrom0, cost0;
    var ns := neighbors(current);
    var c := cost0[current];
    var i := 0;
    while i < |ns|
      invariant 0 <= i <= |ns|
      invariant Expanding(isGoal, neighbors, start, current, c, open, cameFrom, cost)
      invariant forall k :: 0 <= k < i ==> ns[k] in cost
      invariant cost0.Keys <= cost.Keys
      invariant forall s :: s in open ==> s in open0 || s !in cost0
    {
      var n := ns[i];
      var newCost := c + 1;
      if n !in cost || newCost < cost[n] {
        assert n !in cost0;
        forall w | WalkFrom(neighbors, start, w) && Last(w) == n
          ensures newCost <= |w| - 1
        {
          UndiscoveredIsFar(neighbors, start, open0, cost0, cost0[current], w);
        }
        RecordSuccessor(isGoal, neighbors, start, current, c, open, cameFrom, cost, n);
        cost := cost[n := newCost];
        cameFrom := cameFrom[n := current];
        open := open + {n};
      }
      assert n in cost;
      i := i + 1;
    }
  }

  /** The invariant of the loop over the successors of `current`, whose cost is `c`. */
  ghost predicate Expanding<S(!new)>(isGoal: S -> bool, neighbors: S -> seq<S>, start: S, current: S, c: nat,
                                     open: set<S>, cameFrom: map<S, S>, cost: map<S, nat>)
  {
    && Tree(neighbors, start, cameFrom, cost)
    && Layered(open, cost, c)
    && ClosedNotGoal(isGoal, open, cost)
    && (forall s :: s in cost && s !in open && s != current ==> forall n :: n in neighbors(s) ==> n in cost)
    && CostsAreLowerBounds(neighbors, start, cost)
    && current in cost && cost[current] == c && current !in open
    && start !in open
  }

  /** Recording a new successor `n` of `current` keeps the loop invariant. */
  lemma RecordSuccessor<S(!new)>(isGoal: S -> bool, neighbors: S -> seq<S>, start: S, current: S, c: nat,
                                 open: set<S>, cameFrom: map<S, S>, cost: map<S, nat>, n: S)
    requires Expanding(isGoal, neighbors, start, current, c, open, cameFrom, cost)
    requires n !in cost && n in neighbors(current)
    requires forall w :: WalkFrom(neighbors, start, w) && Last(w) == n ==> c + 1 <= |w| - 1
    ensures Expanding(isGoal, neighbors, start, current, c, open + {n}, cameFrom[n := current], cost[n := c + 1])
  {
    RecordKeepsTree(neighbors, start, current, cameFrom, cost, n);
    RecordKeepsLayers(isGoal, neighbors, current, c, open, cost, n);
    RecordKeepsLowerBounds(neighbors, start, c, cost, n);
  }

  lemma RecordKeepsTree<S>(neighbors: S -> seq<S>, start: S, current: S, cameFrom: map<S, S>, cost: map<S, nat>, n: S)
    requires Tree(neighbors, start, cameFrom, cost)
    requires current in cost && n !in cost && n in neighbors(current)
    ensures Tree(neighbors, start, cameFrom[n := current], cost[n := cost[current] + 1])
  {
  }

  lemma RecordKeepsLayers<S>(isGoal: S -> bool, neighbors: S -> seq<S>, current: S, c: nat,
                             open: set<S>, cost: map<S, nat>, n: S)
    requires Layered(open, cost, c) && ClosedNotGoal(isGoal, open, cost)
    requires forall s :: s in cost && s !in open && s != current ==> forall m :: m in neighbors(s) ==> m in cost
    requires n !in cost
    ensures Layered(open + {n}, cost[n := c + 1], c) && ClosedNotGoal(isGoal, open + {n}, cost[n := c + 1])
    ensures forall s :: s in cost[n := c + 1] && s !in open + {n} && s != current ==>
              forall m :: m in neighbors(s) ==> m in cost[n := c + 1]
  {
  }

  lemma RecordKeepsLowerBounds<S(!new)>(neighbors: S -> seq<S>, start: S, c: nat, cost: map<S, nat>, n: S)
    requires CostsAreLowerBounds(neighbors, start, cost)
    requires forall w :: WalkFrom(neighbors, start, w) && Last(w) == n ==> c + 1 <= |w| - 1
    ensures CostsAreLowerBounds(neighbors, start, cost[n := c + 1])
  {
    var cost' := cost[n := c + 1];
    forall w | WalkFrom(neighbors, start, w) && Last(w) in cost'
      ensures cost'[Last(w)] <= |w| - 1
    {
      if Last(w) != n {
        assert Last(w) in cost;
      }
    }
  }

  /** The path reconstructed at a goal popped with least cost is a shortest walk to any goal. */
  lemma FoundIsShortest<S(!new)>(isGoal: S -> bool, neighbors: S -> seq<S>, start: S, open: set<S>,
                           cameFrom: map<S, S>, cost: map<S, nat>, current: S, path: seq<S>)
    requires Tree(neighbors, start, cameFrom, cost)
    requires open <= cost.Keys
    requires ClosedNotGoal(isGoal, open, cost) && ClosedExpanded(neighbors, open, cost)
    requires CostsAreLowerBounds(neighbors, start, cost)
    requires current in open && isGoal(current) && forall s :: s in open ==> cost[current] <= cost[s]
    requires |path| > 0 && Last(path) == current && path[0] in cost && path[0] !in cameFrom
    requires forall i :: 0 < i < |path| ==> path[i] in cameFrom && cameFrom[path[i]] == path[i - 1]
    requires |path| + cost[path[0]] == cost[current] + 1
    ensures WalkFrom(neighbors, start, path) && isGoal(Last(path))
    ensures forall w :: WalkFrom(neighbors, start, w) && isGoal(Last(w)) ==> |path| <= |w|
  {
    assert path[0] == start;
    forall w | WalkFrom(neighbors, start, w) && isGoal(Last(w))
      ensures |path| <= |w|
    {
      if Last(w) !in cost {
        UndiscoveredIsFar(neighbors, start, open, cost, cost[current], w);
      }
    }
  }
}
