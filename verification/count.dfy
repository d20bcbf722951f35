/**
 * The movement counter of centralized/sipp/count.py: for each agent of a
 * schedule, the number of time steps at which it changes cell, and the sum
 * of those counts over all agents.
 */
module MovementCount {
  import opened Wrappers
  import opened StateModel

  /** The `schedule` of an output file: each agent's `{t, x, y}` records, in file order. */
  type Schedule = seq<(string, seq<Record>)>

  /** The step from `prev` to `current` changes cell; the time stamp plays no part. */
  predicate Moved(prev: Record, current: Record) {
    prev.x != current.x || prev.y != current.y
  }

  /** The number of steps of `positions` that change cell, counted from the front. */
  function Moves(positions: seq<Record>): nat
    decreases |positions|
  {
    if |positions| <= 1 then 0
    else
      var n := |positions|;
      Moves(positions[..n - 1]) + if Moved(positions[n - 2], positions[n - 1]) then 1 else 0
  }

  /** Record `i` differs in x or y from record i - 1. */
  predicate MovesAt(positions: seq<Record>, i: int) {
    1 <= i < |positions| && Moved(positions[i - 1], positions[i])
  }

  /** The indices i >= 1 at which a record differs in x or y from record i - 1. */
  function MoveSteps(positions: seq<Record>): set<int> {
    set i | 0 <= i < |positions| && MovesAt(positions, i)
  }

  /** The count is exactly the number of indices i >= 1 whose record changes cell. */
  lemma {:induction false} MovesCountsMoveSteps(positions: seq<Record>)
    ensures Moves(positions) == |MoveSteps(positions)|
    decreases |positions|
  {
    var n := |positions|;
    if n <= 1 {
      assert MoveSteps(positions) == {};
    } else {
      var prefix := positions[..n - 1];
      MovesCountsMoveSteps(prefix);
      if Moved(positions[n - 2], positions[n - 1]) {
        assert MoveSteps(positions) == MoveSteps(prefix) + {n - 1};
      } else {
        assert MoveSteps(positions) == MoveSteps(prefix);
      }
    }
  }

  /** At most one move per step, and none for a schedule of zero or one record. */
  lemma {:induction false} MovesBound(positions: seq<Record>)
    ensures |positions| <= 1 ==> Moves(positions) == 0
    ensures |positions| >= 1 ==> Moves(positions) <= |positions| - 1
    decreases |positions|
  {
    if |positions| > 1 {
      MovesBound(positions[..|positions| - 1]);
    }
  }

  /** A wait step (same x and y, whatever the time) adds nothing to the count; a real step adds one. */
  lemma MovesSnoc(positions: seq<Record>, r: Record)
    requires positions != []
    ensures Moves(positions + [r]) == Moves(positions) + if Moved(positions[|positions| - 1], r) then 1 else 0
  {
    assert (positions + [r])[..|positions|] == positions;
  }

  /** An agent that never leaves its first cell has count 0, and conversely. */
  lemma {:induction false} MovesZeroIffStill(positions: seq<Record>)
    ensures Moves(positions) == 0 <==>
      forall i :: 0 <= i < |positions| ==> positions[i].x == positions[0].x && positions[i].y == positions[0].y
    decreases |positions|
  {
    var n := |positions|;
    if n > 1 {
      var prefix := positions[..n - 1];
      MovesZeroIffStill(prefix);
      assert forall i :: 0 <= i < n - 1 ==> prefix[i] == positions[i];
    }
  }

  /** Manhattan distance between the cells of two records. */
  function Distance(a: Record, b: Record): nat {
    (if a.x <= b.x then b.x - a.x else a.x - b.x) + (if a.y <= b.y then b.y - a.y else a.y - b.y)
  }

  /**
   * When each step changes x or y by at most one unit in total (as the
   * planner's paths do), an agent moves at least as often as the Manhattan
   * distance between its first and last cell.
   */
  lemma {:induction false} MovesAtLeastDistance(positions: seq<Record>)
    requires positions != []
    requires forall i :: 1 <= i < |positions| ==> Distance(positions[i - 1], positions[i]) <= 1
    ensures Moves(positions) >= Distance(positions[0], positions[|positions| - 1])
    decreases |positions|
  {
    var n := |positions|;
    if n > 1 {
      var prefix := positions[..n - 1];
      MovesAtLeastDistance(prefix);
      assert Distance(positions[0], positions[n - 1]) <= Distance(positions[0], positions[n - 2]) + Distance(positions[n - 2], positions[n - 1]);
    }
  }

  /** The inner loop of `count_agent_movements`: the moves of one agent. */
  method CountMoves(positions: seq<Record>) returns (count: nat)
    ensures count == Moves(positions)
  {
    count := 0;
    var i := 1;
    while i < |positions|
      invariant 1 <= i
      invariant |positions| == 0 ==> i == 1 && count == 0
      invariant |positions| > 0 ==> i <= |positions| && count == Moves(positions[..i])
    {
      var prev := positions[i - 1];
      var current := positions[i];
      if prev.x != current.x || prev.y != current.y {
        count := count + 1;
      }
      assert positions[..i + 1][..i] == positions[..i];
      i := i + 1;
    }
    if |positions| > 0 {
      assert positions[..i] == positions;
    }
  }

  /**
   * `count_agent_movements` on the loaded file: no entries when it has no
   * `schedule`; otherwise one entry per agent, in schedule order, holding that
   * agent's number of moves.
   */
  method CountAgentMovements(schedule: Option<Schedule>) returns (movements: seq<(string, nat)>)
    ensures schedule.None? ==> movements == []
    ensures schedule.Some? ==> |movements| == |schedule.value|
    ensures schedule.Some? ==> forall k :: 0 <= k < |movements| ==>
      movements[k].0 == schedule.value[k].0 && movements[k].1 == |MoveSteps(schedule.value[k].1)|
  {
    movements := [];
    if schedule.Some? {
      var items := schedule.value;
      var k := 0;
      while k < |items|
        invariant 0 <= k <= |items| && |movements| == k
        invariant forall m :: 0 <= m < k ==> movements[m].0 == items[m].0 && movements[m].1 == Moves(items[m].1)
      {
        var (agent, positions) := items[k];
        var count := CountMoves(positions);
        movements := movements + [(agent, count)];
        k := k + 1;
      }
      forall m | 0 <= m < k
        ensures movements[m].1 == |MoveSteps(items[m].1)|
      {
        MovesCountsMoveSteps(items[m].1);
      }
    }
  }

  /** `total_movements`: the sum of the per-agent counts. */
  function TotalMovements(movements: seq<(string, nat)>): nat {
    if movements == [] then 0
    else TotalMovements(movements[..|movements| - 1]) + movements[|movements| - 1].1
  }

  /** The total of a concatenation is the sum of the totals. */
  lemma {:induction false} TotalMovementsAppend(a: seq<(string, nat)>, b: seq<(string, nat)>)
    ensures TotalMovements(a + b) == TotalMovements(a) + TotalMovements(b)
    decreases |b|
  {
    if b == [] {
      assert a + b == a;
    } else {
      var b' := b[..|b| - 1];
      assert (a + b)[..|a + b| - 1] == a + b';
      TotalMovementsAppend(a, b');
    }
  }

  /** The total is 0 exactly when every agent's count is 0, and it is at least each count. */
  lemma {:induction false} TotalMovementsZeroIff(movements: seq<(string, nat)>)
    ensures TotalMovements(movements) == 0 <==> forall k :: 0 <= k < |movements| ==> movements[k].1 == 0
    ensures forall k :: 0 <= k < |movements| ==> movements[k].1 <= TotalMovements(movements)
    decreases |movements|
  {
    if movements != [] {
      var prefix := movements[..|movements| - 1];
      TotalMovementsZeroIff(prefix);
      assert forall k :: 0 <= k < |prefix| ==> prefix[k] == movements[k];
    }
  }

  /** The steps of a whole schedule: the sum over agents of their records less one. */
  function Steps(schedule: Schedule): int {
    if schedule == [] then 0
    else
      var last := schedule[|schedule| - 1].1;
      Steps(schedule[..|schedule| - 1]) + if last == [] then 0 else |last| - 1
  }

  /**
   * Totalled over the counts of a schedule, the movements never exceed its
   * steps, and they are 0 exactly when no agent ever leaves its first cell.
   */
  lemma {:induction false} TotalOfSchedule(schedule: Schedule, movements: seq<(string, nat)>)
    requires |movements| == |schedule|
    requires forall k :: 0 <= k < |movements| ==> movements[k].1 == Moves(schedule[k].1)
    ensures TotalMovements(movements) <= Steps(schedule)
    ensures TotalMovements(movements) == 0 <==> forall k, i :: 0 <= k < |schedule| && 0 <= i < |schedule[k].1| ==>
      schedule[k].1[i].x == schedule[k].1[0].x && schedule[k].1[i].y == schedule[k].1[0].y
    decreases |schedule|
  {
    TotalMovementsZeroIff(movements);
    forall k | 0 <= k < |schedule| {
      MovesZeroIffStill(schedule[k].1);
    }
    if schedule != [] {
      var n := |schedule|;
      TotalOfSchedule(schedule[..n - 1], movements[..n - 1]);
      MovesBound(schedule[n - 1].1);
    }
  }
}
