/**
 * The warehouse benchmark generator (centralized/benchmark/warehouse_gen.py).
 * A warehouse of `width` x `height` shelf blocks: each block is 3 cells wide
 * and 2 cells tall, blocks are separated by one-cell aisles, and a one-cell
 * border runs around the whole floor. Robots start on the border and their
 * goals lie on the aisles between the blocks.
 */
module WarehouseGen {
  import opened Wrappers
  import CoopPlanner

  type Cell = (int, int)

  /** The `map` entry of a benchmark: its dimensions and its list of obstacles. */
  datatype WarehouseMap = WarehouseMap(dimensions: (int, int), obstacles: seq<Cell>)

  /** `random.sample` refuses a negative sample size with a `ValueError`. */
  datatype SampleError = NegativeSample


  // ---------------------------------------------------------------- make_map

  /** A cell that is on no vertical aisle (x % 4 == 1) and no horizontal aisle (y % 3 == 1). */
  predicate IsShelf(c: Cell) {
    c.0 % 4 != 1 && c.1 % 3 != 1
  }

  /** The four corners of the floor, which no robot may use. */
  function Corners(width: int, height: int): seq<Cell> {
    [(0, 0), (4 * width + 2, 0), (0, 3 * height + 2), (4 * width + 2, 3 * height + 2)]
  }

  /** The shelf cells (i, j) of column `i` with 1 <= j < top, bottom to top. */
  function ColumnShelves(i: int, top: int): seq<Cell>
    decreases top
  {
    if top <= 1 then []
    else ColumnShelves(i, top - 1) + (if IsShelf((i, top - 1)) then [(i, top - 1)] else [])
  }

  /** The shelf cells of the columns 1 <= i < right, column by column. */
  function Shelves(right: int, top: int): seq<Cell>
    decreases right
  {
    if right <= 1 then [] else Shelves(right - 1, top) + ColumnShelves(right - 1, top)
  }

  /** The obstacle list of `make_map`: the corners, then the shelves column by column. */
  function Layout(width: int, height: int): seq<Cell> {
    Corners(width, height) + Shelves(4 * width + 1, 3 * height + 1)
  }

  /** `make_map`: the floor is (4 * width + 3) x (3 * height + 3) cells and its obstacles are `Layout`. */
  method MakeMap(width: int, height: int) returns (m: WarehouseMap)
    ensures m.dimensions == (4 * width + 3, 3 * height + 3)
    ensures m.obstacles == Layout(width, height)
  {
    var obstacles := Corners(width, height);
    var i := 1;
    while i < 4 * width + 1
      invariant 1 <= i && (i <= 4 * width + 1 || i == 1)
      invariant obstacles == Corners(width, height) + Shelves(i, 3 * height + 1)
    {
      var j := 1;
      while j < 3 * height + 1
        invariant 1 <= j && (j <= 3 * height + 1 || j == 1)
        invariant obstacles == Corners(width, height) + Shelves(i, 3 * height + 1) + ColumnShelves(i, j)
      {
        if i % 4 != 1 && j % 3 != 1 {
          obstacles := obstacles + [(i, j)];
        }
        j := j + 1;
      }
      AppendAssoc(Corners(width, height), Shelves(i, 3 * height + 1), ColumnShelves(i, 3 * height + 1));
      i := i + 1;
    }
    m := WarehouseMap((4 * width + 3, 3 * height + 3), obstacles);
  }


  lemma {:induction false} ColumnShelvesMembers(i: int, top: int, c: Cell)
    ensures c in ColumnShelves(i, top) <==> c.0 == i && 1 <= c.1 < top && IsShelf(c)
    decreases top
  {
    if top > 1 {
      ColumnShelvesMembers(i, top - 1, c);
    }
  }

  lemma {:induction false} ShelvesMembers(right: int, top: int, c: Cell)
    ensures c in Shelves(right, top) <==> 1 <= c.0 < right && 1 <= c.1 < top && IsShelf(c)
    decreases right
  {
    if right > 1 {
      ShelvesMembers(right - 1, top, c);
      ColumnShelvesMembers(right - 1, top, c);
    }
  }

  /**
   * A cell is an obstacle of `make_map` exactly when it is a corner or an
   * interior cell (1 <= x <= 4 * width, 1 <= y <= 3 * height) off both aisles.
   */
  lemma LayoutMembers(width: int, height: int, c: Cell)
    ensures c in Layout(width, height) <==>
      c in Corners(width, height) || (1 <= c.0 <= 4 * width && 1 <= c.1 <= 3 * height && IsShelf(c))
  {
    ShelvesMembers(4 * width + 1, 3 * height + 1, c);
  }

  /** Every obstacle lies inside the floor. */
  lemma ObstaclesInsideMap(width: int, height: int, c: Cell)
    requires width >= 0 && height >= 0
    requires c in Layout(width, height)
    ensures 0 <= c.0 < 4 * width + 3 && 0 <= c.1 < 3 * height + 3
  {
    LayoutMembers(width, height, c);
  }

  /** A column on a vertical aisle holds no shelf; any other column holds 2 shelf cells per block. */
  lemma {:induction false} ColumnShelvesCount(i: int, height: nat)
    ensures |ColumnShelves(i, 3 * height + 1)| == if i % 4 == 1 then 0 else 2 * height
  {
    if height > 0 {
      ColumnShelvesCount(i, height - 1);
      var top := 3 * (height - 1) + 1;
      Residues3(height - 1);
      assert ColumnShelves(i, top + 3) == ColumnShelves(i, top + 2) + (if IsShelf((i, top + 2)) then [(i, top + 2)] else []);
      assert ColumnShelves(i, top + 2) == ColumnShelves(i, top + 1) + (if IsShelf((i, top + 1)) then [(i, top + 1)] else []);
      assert ColumnShelves(i, top + 1) == ColumnShelves(i, top) + (if IsShelf((i, top)) then [(i, top)] else []);
    }
  }

  /** Each of the width x height blocks holds 3 x 2 shelf cells; with the corners, 4 + 6 * width * height obstacles. */
  lemma {:induction false} LayoutCount(width: nat, height: nat)
    ensures |Shelves(4 * width + 1, 3 * height + 1)| == width * (6 * height)
    ensures |Layout(width, height)| == 4 + width * (6 * height)
  {
    if width > 0 {
      var right := 4 * (width - 1) + 1;
      LayoutCount(width - 1, height);
      ShelvesBlock(right, height);
      MulStep(width, 6 * height);
    }
  }

  lemma MulStep(a: int, b: int)
    ensures a * b == (a - 1) * b + b
  {
  }

  /** The four columns right, ..., right + 3 of one block column, starting on an aisle, add 3 x 2h shelves. */
  lemma ShelvesBlock(right: int, height: nat)
    requires right >= 1 && right % 4 == 1
    ensures |Shelves(right + 4, 3 * height + 1)| == |Shelves(right, 3 * height + 1)| + 6 * height
  {
    var top := 3 * height + 1;
    assert (right + 1) % 4 == 2 && (right + 2) % 4 == 3 && (right + 3) % 4 == 0;
    ColumnShelvesCount(right, height);
    ColumnShelvesCount(right + 1, height);
    ColumnShelvesCount(right + 2, height);
    ColumnShelvesCount(right + 3, height);
    var c0, c1, c2, c3 := ColumnShelves(right, top), ColumnShelves(right + 1, top), ColumnShelves(right + 2, top), ColumnShelves(right + 3, top);
    assert |c0| == 0 && |c1| == 2 * height && |c2| == 2 * height && |c3| == 2 * height;
    assert |Shelves(right + 1, top)| == |Shelves(right, top)| + |c0|;
    assert |Shelves(right + 2, top)| == |Shelves(right + 1, top)| + |c1|;
    assert |Shelves(right + 3, top)| == |Shelves(right + 2, top)| + |c2|;
    assert |Shelves(right + 4, top)| == |Shelves(right + 3, top)| + |c3|;
  }

  // ----------------------------------------------------------- generate_goals

  /** The goals (i, y) of the horizontal aisle at row y, for 2 <= i < right, skipping vertical-aisle crossings. */
  function RowGoals(y: int, right: int): seq<Cell>
    decreases right
  {
    if right <= 2 then []
    else RowGoals(y, right - 1) + (if (right - 1) % 4 != 1 then [(right - 1, y)] else [])
  }

  /** The goals of the horizontal aisles at rows 4 + 3 * j, for 0 <= j < rows. */
  function RowsGoals(width: int, rows: int): seq<Cell>
    decreases rows
  {
    if rows <= 0 then [] else RowsGoals(width, rows - 1) + RowGoals(4 + 3 * (rows - 1), 4 * width + 1)
  }

  /** The goals (x, j) of the vertical aisle at column x, for 2 <= j < top, skipping horizontal-aisle crossings. */
  function ColGoals(x: int, top: int): seq<Cell>
    decreases top
  {
    if top <= 2 then []
    else ColGoals(x, top - 1) + (if (top - 1) % 3 != 1 then [(x, top - 1)] else [])
  }

  /** The goals of the vertical aisles at columns 5 + 4 * i, for 0 <= i < cols. */
  function ColsGoals(height: int, cols: int): seq<Cell>
    decreases cols
  {
    if cols <= 0 then [] else ColsGoals(height, cols - 1) + ColGoals(5 + 4 * (cols - 1), 3 * height + 1)
  }

  /** `feasible_goals`: the inner horizontal aisles row by row, then the inner vertical aisles column by column. */
  function GoalCells(width: int, height: int): seq<Cell> {
    RowsGoals(width, height - 1) + ColsGoals(height, width - 1)
  }

  /** The first loop nest of `generate_goals`: the goals of the inner horizontal aisles. */
  method RowAisleGoals(width: int, rows: int) returns (goals: seq<Cell>)
    ensures goals == RowsGoals(width, rows)
  {
    goals := [];
    var j := 0;
    while j < rows
      invariant 0 <= j && (j <= rows || j == 0)
      invariant goals == RowsGoals(width, j)
    {
      ghost var before := goals;
      var i := 2;
      while i < 4 * width + 1
        invariant 2 <= i && (i <= 4 * width + 1 || i == 2)
        invariant goals == before + RowGoals(4 + 3 * j, i)
      {
        if i % 4 != 1 {
          goals := goals + [(i, 4 + 3 * j)];
        }
        i := i + 1;
      }
      j := j + 1;
    }
  }

  /** The second loop nest of `generate_goals`: the goals of the inner vertical aisles. */
  method ColumnAisleGoals(height: int, cols: int) returns (goals: seq<Cell>)
    ensures goals == ColsGoals(height, cols)
  {
    goals := [];
    var i := 0;
    while i < cols
      invariant 0 <= i && (i <= cols || i == 0)
      invariant goals == ColsGoals(height, i)
    {
      ghost var before := goals;
      var j := 2;
      while j < 3 * height + 1
        invariant 2 <= j && (j <= 3 * height + 1 || j == 2)
        invariant goals == before + ColGoals(5 + 4 * i, j)
      {
        if j % 3 != 1 {
          goals := goals + [(5 + 4 * i, j)];
        }
        j := j + 1;
      }
      i := i + 1;
    }
  }

  /** The feasible goals of `generate_goals`, in the order its loops append them. */
  method FeasibleGoals(width: int, height: int) returns (goals: seq<Cell>)
    ensures goals == GoalCells(width, height)
  {
    var rows := RowAisleGoals(width, height - 1);
    var cols := ColumnAisleGoals(height, width - 1);
    goals := rows + cols;
  }

  lemma {:induction false} RowGoalsMembers(y: int, right: int, c: Cell)
    ensures c in RowGoals(y, right) <==> c.1 == y && 2 <= c.0 < right && c.0 % 4 != 1
    decreases right
  {
    if right > 2 {
      RowGoalsMembers(y, right - 1, c);
    }
  }

  lemma RowsGoalsMembers(width: int, rows: int, c: Cell)
    ensures c in RowsGoals(width, rows) <==>
      4 <= c.1 < 3 * rows + 4 && c.1 % 3 == 1 && 2 <= c.0 <= 4 * width && c.0 % 4 != 1
  {
    if c in RowsGoals(width, rows) {
      RowsGoalsSound(width, rows, c);
    } else if 4 <= c.1 < 3 * rows + 4 && c.1 % 3 == 1 && 2 <= c.0 <= 4 * width && c.0 % 4 != 1 {
      RowsGoalsComplete(width, rows, c);
    }
  }

  lemma {:induction false} RowsGoalsSound(width: int, rows: int, c: Cell)
    requires c in RowsGoals(width, rows)
    ensures 4 <= c.1 < 3 * rows + 4 && c.1 % 3 == 1 && 2 <= c.0 <= 4 * width && c.0 % 4 != 1
    decreases rows
  {
    if c in RowsGoals(width, rows - 1) {
      RowsGoalsSound(width, rows - 1, c);
    } else {
      RowGoalsMembers(4 + 3 * (rows - 1), 4 * width + 1, c);
      Residues3(rows);
    }
  }

  lemma {:induction false} RowsGoalsComplete(width: int, rows: int, c: Cell)
    requires 4 <= c.1 < 3 * rows + 4 && c.1 % 3 == 1 && 2 <= c.0 <= 4 * width && c.0 % 4 != 1
    ensures c in RowsGoals(width, rows)
    decreases rows
  {
    var y := 4 + 3 * (rows - 1);
    if c.1 < y {
      RowsGoalsComplete(width, rows - 1, c);
    } else {
      AisleWindow3(rows - 1, c.1);
      RowGoalsMembers(y, 4 * width + 1, c);
    }
  }

  /** Among the three values from 4 + 3 * k, only the first is 1 modulo 3. */
  lemma AisleWindow3(k: int, v: int)
    ensures 4 + 3 * k <= v < 7 + 3 * k ==> (v % 3 == 1 <==> v == 4 + 3 * k)
  {
  }

  lemma {:induction false} ColGoalsMembers(x: int, top: int, c: Cell)
    ensures c in ColGoals(x, top) <==> c.0 == x && 2 <= c.1 < top && c.1 % 3 != 1
    decreases top
  {
    if top > 2 {
      ColGoalsMembers(x, top - 1, c);
    }
  }

  lemma ColsGoalsMembers(height: int, cols: int, c: Cell)
    ensures c in ColsGoals(height, cols) <==>
      5 <= c.0 < 4 * cols + 5 && c.0 % 4 == 1 && 2 <= c.1 <= 3 * height && c.1 % 3 != 1
  {
    if c in ColsGoals(height, cols) {
      ColsGoalsSound(height, cols, c);
    } else if 5 <= c.0 < 4 * cols + 5 && c.0 % 4 == 1 && 2 <= c.1 <= 3 * height && c.1 % 3 != 1 {
      ColsGoalsComplete(height, cols, c);
    }
  }

  lemma {:induction false} ColsGoalsSound(height: int, cols: int, c: Cell)
    requires c in ColsGoals(height, cols)
    ensures 5 <= c.0 < 4 * cols + 5 && c.0 % 4 == 1 && 2 <= c.1 <= 3 * height && c.1 % 3 != 1
    decreases cols
  {
    if c in ColsGoals(height, cols - 1) {
      ColsGoalsSound(height, cols - 1, c);
    } else {
      ColGoalsMembers(5 + 4 * (cols - 1), 3 * height + 1, c);
      Residues4(cols);
    }
  }

  lemma {:induction false} ColsGoalsComplete(height: int, cols: int, c: Cell)
    requires 5 <= c.0 < 4 * cols + 5 && c.0 % 4 == 1 && 2 <= c.1 <= 3 * height && c.1 % 3 != 1
    ensures c in ColsGoals(height, cols)
    decreases cols
  {
    var x := 5 + 4 * (cols - 1);
    if c.0 < x {
      ColsGoalsComplete(height, cols - 1, c);
    } else {
      AisleWindow4(cols - 1, c.0);
      ColGoalsMembers(x, 3 * height + 1, c);
    }
  }

  /** Among the four values from 5 + 4 * k, only the first is 1 modulo 4. */
  lemma AisleWindow4(k: int, v: int)
    ensures 5 + 4 * k <= v < 9 + 4 * k ==> (v % 4 == 1 <==> v == 5 + 4 * k)
  {
  }

  /**
   * Every feasible goal is an aisle cell strictly inside the shelf area, so it
   * is never an obstacle of `make_map`, and it lies inside the floor.
   */
  lemma GoalsAreFree(width: int, height: int, c: Cell)
    requires c in GoalCells(width, height)
    ensures c.0 % 4 == 1 || c.1 % 3 == 1
    ensures 2 <= c.0 <= 4 * width && 2 <= c.1 <= 3 * height
    ensures c !in Layout(width, height)
  {
    RowsGoalsMembers(width, height - 1, c);
    ColsGoalsMembers(height, width - 1, c);
    LayoutMembers(width, height, c);
  }

  lemma {:induction false} RowGoalsOnRow(y: int, right: int, c: Cell)
    ensures c in RowGoals(y, right) ==> c.1 == y
    decreases right
  {
    if right > 2 {
      RowGoalsOnRow(y, right - 1, c);
    }
  }

  /** The first `rows` horizontal aisles lie below row 4 + 3 * rows. */
  lemma {:induction false} RowsGoalsBelow(width: int, rows: int, c: Cell)
    ensures c in RowsGoals(width, rows) ==> c.1 < 4 + 3 * rows
    decreases rows
  {
    if rows > 0 {
      RowsGoalsBelow(width, rows - 1, c);
      RowGoalsOnRow(4 + 3 * (rows - 1), 4 * width + 1, c);
    }
  }

  lemma {:induction false} ColGoalsOnColumn(x: int, top: int, c: Cell)
    ensures c in ColGoals(x, top) ==> c.0 == x
    decreases top
  {
    if top > 2 {
      ColGoalsOnColumn(x, top - 1, c);
    }
  }

  /** The first `cols` vertical aisles lie left of column 5 + 4 * cols. */
  lemma {:induction false} ColsGoalsLeft(height: int, cols: int, c: Cell)
    ensures c in ColsGoals(height, cols) ==> c.0 < 5 + 4 * cols
    decreases cols
  {
    if cols > 0 {
      ColsGoalsLeft(height, cols - 1, c);
      ColGoalsOnColumn(5 + 4 * (cols - 1), 3 * height + 1, c);
    }
  }

  lemma {:induction false} RowGoalsDistinct(y: int, right: int)
    ensures Distinct(RowGoals(y, right))
    decreases right
  {
    if right > 2 {
      RowGoalsDistinct(y, right - 1);
      RowGoalsMembers(y, right - 1, (right - 1, y));
      if (right - 1) % 4 != 1 {
        DistinctSnoc(RowGoals(y, right - 1), (right - 1, y));
      }
    }
  }

  lemma {:induction false} RowsGoalsDistinct(width: int, rows: int)
    ensures Distinct(RowsGoals(width, rows))
    decreases rows
  {
    if rows > 0 {
      var y := 4 + 3 * (rows - 1);
      RowsGoalsDistinct(width, rows - 1);
      RowGoalsDistinct(y, 4 * width + 1);
      var earlier, row := RowsGoals(width, rows - 1), RowGoals(y, 4 * width + 1);
      forall c | c in earlier
        ensures c !in row
      {
        RowsGoalsBelow(width, rows - 1, c);
        RowGoalsOnRow(y, 4 * width + 1, c);
      }
      DistinctAppend(RowsGoals(width, rows - 1), RowGoals(y, 4 * width + 1));
    }
  }

  lemma {:induction false} ColGoalsDistinct(x: int, top: int)
    ensures Distinct(ColGoals(x, top))
    decreases top
  {
    if top > 2 {
      ColGoalsDistinct(x, top - 1);
      ColGoalsMembers(x, top - 1, (x, top - 1));
      if (top - 1) % 3 != 1 {
        DistinctSnoc(ColGoals(x, top - 1), (x, top - 1));
      }
    }
  }

  lemma {:induction false} ColsGoalsDistinct(height: int, cols: int)
    ensures Distinct(ColsGoals(height, cols))
    decreases cols
  {
    if cols > 0 {
      var x := 5 + 4 * (cols - 1);
      ColsGoalsDistinct(height, cols - 1);
      ColGoalsDistinct(x, 3 * height + 1);
      var earlier, col := ColsGoals(height, cols - 1), ColGoals(x, 3 * height + 1);
      forall c | c in earlier
        ensures c !in col
      {
        ColsGoalsLeft(height, cols - 1, c);
        ColGoalsOnColumn(x, 3 * height + 1, c);
      }
      DistinctAppend(ColsGoals(height, cols - 1), ColGoals(x, 3 * height + 1));
    }
  }

  /** No cell is offered twice as a goal. */
  lemma GoalCellsDistinct(width: int, height: int)
    ensures Distinct(GoalCells(width, height))
  {
    RowsGoalsDistinct(width, height - 1);
    ColsGoalsDistinct(height, width - 1);
    var rows, cols := RowsGoals(width, height - 1), ColsGoals(height, width - 1);
    forall c | c in rows
      ensures c !in cols
    {
      RowsGoalsMembers(width, height - 1, c);
      ColsGoalsMembers(height, width - 1, c);
    }
    DistinctAppend(RowsGoals(width, height - 1), ColsGoals(height, width - 1));
  }

  /** One more column of the horizontal aisle adds a goal unless it crosses a vertical aisle. */
  lemma RowGoalsStep(y: int, right: int)
    requires right >= 1
    ensures |RowGoals(y, right + 1)| == |RowGoals(y, right)| + if right % 4 != 1 then 1 else 0
  {
  }

  lemma Residues4(k: int)
    ensures (4 * k + 1) % 4 == 1 && (4 * k + 2) % 4 == 2 && (4 * k + 3) % 4 == 3 && (4 * k + 4) % 4 == 0
  {
  }

  lemma Residues3(k: int)
    ensures (3 * k + 1) % 3 == 1 && (3 * k + 2) % 3 == 2 && (3 * k + 3) % 3 == 0
  {
  }

  lemma {:induction false} RowGoalsCount(y: int, width: nat)
    ensures |RowGoals(y, 4 * width + 1)| == 3 * width
  {
    if width > 0 {
      RowGoalsCount(y, width - 1);
      var right := 4 * (width - 1) + 1;
      Residues4(width - 1);
      RowGoalsStep(y, right);
      RowGoalsStep(y, right + 1);
      RowGoalsStep(y, right + 2);
      RowGoalsStep(y, right + 3);
    }
  }

  /** One more row of the vertical aisle adds a goal unless it crosses a horizontal aisle. */
  lemma ColGoalsStep(x: int, top: int)
    requires top >= 1
    ensures |ColGoals(x, top + 1)| == |ColGoals(x, top)| + if top % 3 != 1 then 1 else 0
  {
  }

  lemma {:induction false} ColGoalsCount(x: int, height: nat)
    ensures |ColGoals(x, 3 * height + 1)| == 2 * height
  {
    if height > 0 {
      ColGoalsCount(x, height - 1);
      var top := 3 * (height - 1) + 1;
      Residues3(height - 1);
      ColGoalsStep(x, top);
      ColGoalsStep(x, top + 1);
      ColGoalsStep(x, top + 2);
    }
  }

  lemma {:induction false} RowsGoalsCount(width: nat, rows: nat)
    ensures |RowsGoals(width, rows)| == 3 * width * rows
  {
    if rows > 0 {
      RowsGoalsCount(width, rows - 1);
      RowGoalsCount(4 + 3 * (rows - 1), width);
      assert 3 * width * rows == 3 * width * (rows - 1) + 3 * width;
    }
  }

  lemma {:induction false} ColsGoalsCount(height: nat, cols: nat)
    ensures |ColsGoals(height, cols)| == 2 * height * cols
  {
    if cols > 0 {
      ColsGoalsCount(height, cols - 1);
      ColGoalsCount(5 + 4 * (cols - 1), height);
      assert 2 * height * cols == 2 * height * (cols - 1) + 2 * height;
    }
  }

  /** A warehouse with at least one block each way offers (h - 1) * 3w + (w - 1) * 2h goals. */
  lemma GoalCellsCount(width: int, height: int)
    requires width >= 1 && height >= 1
    ensures |GoalCells(width, height)| == 3 * width * (height - 1) + 2 * height * (width - 1)
  {
    RowsGoalsCount(width, height - 1);
    ColsGoalsCount(height, width - 1);
  }

  /** `random.sample`: `k` elements drawn from distinct positions of `population`, in some order. */
  method Sample<T(==)>(population: seq<T>, k: nat) returns (s: seq<T>)
    requires k <= |population|
    ensures |s| == k && multiset(s) <= multiset(population)
  {
    assert population == population[..k] + population[k..];
    s :| |s| == k && multiset(s) <= multiset(population);
  }

  /**
   * `generate_goals`: no goals when there are fewer feasible goals than agents,
   * otherwise `agents` of them drawn at random; a negative count is refused by
   * the sampling.
   */
  method GenerateGoals(width: int, height: int, agents: int) returns (r: Result<seq<Cell>, SampleError>)
    ensures r.Failure? <==> agents < 0
    ensures r.Success? && |GoalCells(width, height)| < agents ==> r.value == []
    ensures r.Success? && agents <= |GoalCells(width, height)| ==>
      |r.value| == agents && multiset(r.value) <= multiset(GoalCells(width, height))
  {
    var feasible := FeasibleGoals(width, height);
    if |feasible| < agents {
      return Success([]);
    }
    if agents < 0 {
      return Failure(NegativeSample);
    }
    var goals := Sample(feasible, agents);
    r := Success(goals);
  }

  /** Elements drawn from distinct positions of a list without repeats are themselves distinct. */
  lemma SampleOfDistinct<T>(population: seq<T>, s: seq<T>)
    requires Distinct(population) && multiset(s) <= multiset(population)
    ensures Distinct(s)
  {
    forall i, j | 0 <= i < j < |s|
      ensures s[i] != s[j]
    {
      if s[i] == s[j] {
        assert s == s[..i] + [s[i]] + s[i + 1..j] + [s[j]] + s[j + 1..];
        assert multiset(s)[s[i]] >= 2;
        DistinctOccursOnce(population, s[i]);
        assert false;
      }
    }
  }

  lemma {:induction false} DistinctOccursOnce<T>(s: seq<T>, x: T)
    requires Distinct(s)
    ensures multiset(s)[x] <= 1
  {
    if s != [] {
      var prefix := s[..|s| - 1];
      assert s == prefix + [s[|s| - 1]];
      DistinctOccursOnce(prefix, x);
      if x == s[|s| - 1] {
        assert x !in prefix;
      }
    }
  }

  // ------------------------------------------------------------- place_agents

  /** `max_agents`: the number of border cells that are not corners. */
  function MaxAgents(width: int, height: int): int {
    6 * height + 8 * width + 4
  }

  /**
   * The `i`-th feasible start: the border walked from (1, 0) along the bottom
   * row, up the right column, back along the top row and down the left column.
   */
  function StartAt(width: int, height: int, i: int): Cell {
    if i < 4 * width + 1 then (i + 1, 0)
    else if i < 3 * height + 4 * width + 2 then (4 * width + 2, i - 4 * width)
    else if i < 3 * height + 8 * width + 3 then (3 * height + 8 * width + 3 - i, 3 * height + 2)
    else (0, 6 * height + 8 * width + 4 - i)
  }

  /** The loop of `place_agents` that collects the feasible starts. */
  method FeasibleStarts(width: int, height: int) returns (starts: seq<Cell>)
    ensures |starts| == if MaxAgents(width, height) < 0 then 0 else MaxAgents(width, height)
    ensures forall i :: 0 <= i < |starts| ==> starts[i] == StartAt(width, height, i)
  {
    starts := [];
    var i := 0;
    while i < MaxAgents(width, height)
      invariant 0 <= i && (i <= MaxAgents(width, height) || i == 0)
      invariant |starts| == i
      invariant forall k :: 0 <= k < i ==> starts[k] == StartAt(width, height, k)
    {
      starts := starts + [StartAt(width, height, i)];
      i := i + 1;
    }
  }

  /** A cell on the outermost ring of the floor. */
  predicate OnBorder(width: int, height: int, c: Cell) {
    && 0 <= c.0 <= 4 * width + 2 && 0 <= c.1 <= 3 * height + 2
    && (c.0 == 0 || c.0 == 4 * width + 2 || c.1 == 0 || c.1 == 3 * height + 2)
  }

  /** Every feasible start is a border cell that is neither a corner nor an obstacle. */
  lemma StartOnBorder(width: int, height: int, i: int)
    requires width >= 0 && height >= 0 && 0 <= i < MaxAgents(width, height)
    ensures OnBorder(width, height, StartAt(width, height, i))
    ensures StartAt(width, height, i) !in Corners(width, height)
    ensures StartAt(width, height, i) !in Layout(width, height)
  {
    LayoutMembers(width, height, StartAt(width, height, i));
  }

  /** The position of a non-corner border cell in the walk of `StartAt`. */
  function BorderIndex(width: int, height: int, c: Cell): int {
    if c.1 == 0 then c.0 - 1
    else if c.0 == 4 * width + 2 then c.1 + 4 * width
    else if c.1 == 3 * height + 2 then 3 * height + 8 * width + 3 - c.0
    else 6 * height + 8 * width + 4 - c.1
  }

  /** Conversely, every non-corner border cell is a feasible start, at position `BorderIndex`. */
  lemma BorderIsStart(width: int, height: int, c: Cell)
    requires width >= 0 && height >= 0
    requires OnBorder(width, height, c) && c !in Corners(width, height)
    ensures 0 <= BorderIndex(width, height, c) < MaxAgents(width, height)
    ensures StartAt(width, height, BorderIndex(width, height, c)) == c
  {
  }

  /** The walk visits no cell twice. */
  lemma StartsDistinct(width: int, height: int, i: int, j: int)
    requires width >= 0 && height >= 0
    requires 0 <= i < MaxAgents(width, height) && 0 <= j < MaxAgents(width, height) && i != j
    ensures StartAt(width, height, i) != StartAt(width, height, j)
  {
    var c := StartAt(width, height, i);
    assert BorderIndex(width, height, c) == i;
    assert BorderIndex(width, height, StartAt(width, height, j)) == j;
  }

  /** No robot starts on a feasible goal: starts are on the border, goals strictly inside. */
  lemma StartsAreNotGoals(width: int, height: int, i: int)
    requires width >= 0 && height >= 0 && 0 <= i < MaxAgents(width, height)
    ensures StartAt(width, height, i) !in GoalCells(width, height)
  {
    if StartAt(width, height, i) in GoalCells(width, height) {
      GoalsAreFree(width, height, StartAt(width, height, i));
    }
  }

  /** `math.floor(i * max_agents / agents)`, the index of the `i`-th 'spaced' start. */
  function SpacedIndex(i: int, maxAgents: int, agents: int): int
    requires agents > 0
  {
    (i * maxAgents) / agents
  }

  lemma MulLeft(a: int, b: int, d: int)
    requires 0 <= d && a <= b
    ensures a * d <= b * d
  {
  }

  lemma DivBounds(x: int, d: int)
    requires 0 < d
    ensures (x / d) * d <= x < (x / d + 1) * d
  {
  }

  /** With 0 < agents <= max_agents the 'spaced' indices are in range and strictly increasing. */
  lemma SpacedIndexInRange(i: int, maxAgents: int, agents: int)
    requires 0 < agents <= maxAgents && 0 <= i < agents
    ensures 0 <= SpacedIndex(i, maxAgents, agents) < maxAgents
  {
    var a := i * maxAgents;
    var q := a / agents;
    MulLeft(0, i, maxAgents);
    MulLeft(i + 1, agents, maxAgents);
    DivBounds(a, agents);
    if q >= maxAgents {
      MulLeft(maxAgents, q, agents);
    }
  }

  lemma SpacedIndexIncreasing(i: int, maxAgents: int, agents: int)
    requires 0 < agents <= maxAgents && 0 <= i
    ensures SpacedIndex(i, maxAgents, agents) < SpacedIndex(i + 1, maxAgents, agents)
  {
    var a := i * maxAgents;
    var b := (i + 1) * maxAgents;
    assert b == a + maxAgents;
    var q := a / agents;
    var q' := b / agents;
    DivBounds(a, agents);
    DivBounds(b, agents);
    if q' <= q {
      MulLeft(q' + 1, q + 1, agents);
    }
  }

  lemma SpacedIndexStrict(i: int, j: int, maxAgents: int, agents: int)
    requires 0 < agents <= maxAgents && 0 <= i < j
    ensures SpacedIndex(i, maxAgents, agents) < SpacedIndex(j, maxAgents, agents)
    decreases j - i
  {
    SpacedIndexIncreasing(i, maxAgents, agents);
    if i + 1 < j {
      SpacedIndexStrict(i + 1, j, maxAgents, agents);
    }
  }

  /** The 'spaced' placement: every (max_agents / agents)-th feasible start. */
  function Spaced(starts: seq<Cell>, agents: int): (r: seq<Cell>)
    requires agents <= |starts|
    ensures |r| == if agents < 0 then 0 else agents
    ensures forall i :: 0 <= i < |r| ==> r[i] == starts[SpacedIndex(i, |starts|, agents)]
  {
    if agents <= 0 then []
    else
      seq(agents, i requires 0 <= i < agents =>
        SpacedIndexInRange(i, |starts|, agents);
        starts[SpacedIndex(i, |starts|, agents)])
  }

  /** The slice `s[:k]` of Python, where a negative `k` counts from the end. */
  function Head<T>(s: seq<T>, k: int): (r: seq<T>)
    ensures 0 <= k <= |s| ==> r == s[..k]
  {
    if k >= |s| then s
    else if k >= 0 then s[..k]
    else if |s| + k >= 0 then s[..|s| + k]
    else []
  }

  /** `str(i)`: the decimal digits of a natural number, without leading zeros. */
  function NatToString(n: nat): (s: string)
    ensures |s| >= 1 && (|s| == 1 <==> n < 10)
    decreases n
  {
    if n < 10 then [('0' as int + n) as char]
    else NatToString(n / 10) + [('0' as int + n % 10) as char]
  }

  /** Different numbers have different decimal representations. */
  lemma {:induction false} NatToStringInjective(a: nat, b: nat)
    requires NatToString(a) == NatToString(b)
    ensures a == b
    decreases a
  {
    var s := NatToString(a);
    if a >= 10 && b >= 10 {
      assert NatToString(a / 10) == s[..|s| - 1] == NatToString(b / 10);
      NatToStringInjective(a / 10, b / 10);
      assert a % 10 == b % 10 by {
        assert s[|s| - 1] == ('0' as int + a % 10) as char == ('0' as int + b % 10) as char;
      }
    } else {
      assert s[0] == ('0' as int + a) as char == ('0' as int + b) as char;
    }
  }

  /** The name `'agent' + str(i)` of the `i`-th agent. */
  function AgentName(i: nat): string {
    "agent" + NatToString(i)
  }

  lemma AgentNamesDistinct(i: nat, j: nat)
    requires i != j
    ensures AgentName(i) != AgentName(j)
  {
    if AgentName(i) == AgentName(j) {
      assert NatToString(i) == AgentName(i)[5..] == AgentName(j)[5..] == NatToString(j);
      NatToStringInjective(i, j);
    }
  }

  function StartsOf(agents: seq<CoopPlanner.Agent>): (r: seq<Cell>)
    ensures |r| == |agents| && forall i :: 0 <= i < |agents| ==> r[i] == agents[i].start
  {
    seq(|agents|, i requires 0 <= i < |agents| => agents[i].start)
  }

  function GoalsOf(agents: seq<CoopPlanner.Agent>): (r: seq<Cell>)
    ensures |r| == |agents| && forall i :: 0 <= i < |agents| ==> r[i] == agents[i].goal
  {
    seq(|agents|, i requires 0 <= i < |agents| => agents[i].goal)
  }

  /**
   * `place_agents`. No agents when there are more agents than feasible starts,
   * when the placement strategy is unknown, or when there are too few goals;
   * a negative count under a known strategy is refused by the sampling.
   * Otherwise agent `i` is named `agent<i>`, gets the `i`-th start of the
   * strategy and the `i`-th of the sampled goals.
   */
  method PlaceAgents(width: int, height: int, agents: int, placement: string)
    returns (r: Result<seq<CoopPlanner.Agent>, SampleError>)
    ensures agents > MaxAgents(width, height) ==> r == Success([])
    ensures placement !in {"adjacent", "spaced", "random"} ==> r == Success([])
    ensures r.Failure? <==>
      agents < 0 && agents <= MaxAgents(width, height) && placement in {"adjacent", "spaced", "random"}
    ensures r.Success? && r.value != [] ==>
      && 0 < agents <= MaxAgents(width, height) && agents <= |GoalCells(width, height)|
      && |r.value| == agents
      && Placed(width, height, placement, r.value)
    ensures r.Success? && r.value == [] && placement in {"adjacent", "spaced", "random"} ==>
      agents == 0 || agents > MaxAgents(width, height) || |GoalCells(width, height)| < agents
  {
    var maxAgents := MaxAgents(width, height);
    if agents > maxAgents {
      return Success([]);
    }
    var feasible := FeasibleStarts(width, height);
    assert feasible == FeasibleStartCells(width, height);
    var starts: seq<Cell>;
    if placement == "adjacent" {
      starts := Head(feasible, agents);
    } else if placement == "spaced" {
      starts := Spaced(feasible, agents);
      forall i | 0 <= i < |starts|
        ensures starts[i] == StartAt(width, height, SpacedIndex(i, maxAgents, agents))
      {
        SpacedIndexInRange(i, maxAgents, agents);
      }
    } else if placement == "random" {
      if agents < 0 {
        return Failure(NegativeSample);
      }
      starts := Sample(feasible, agents);
    } else {
      return Success([]);
    }
    var goals := GenerateGoals(width, height, agents);
    if goals.Failure? {
      return Failure(goals.error);
    }
    if goals.value == [] {
      return Success([]);
    }
    var placed := seq(agents, i requires 0 <= i < agents => CoopPlanner.Agent(AgentName(i), starts[i], goals.value[i]));
    assert StartsOf(placed) == starts;
    assert GoalsOf(placed) == goals.value;
    r := Success(placed);
  }

  /** All feasible starts, in walk order. */
  function FeasibleStartCells(width: int, height: int): (r: seq<Cell>)
    ensures |r| == if MaxAgents(width, height) < 0 then 0 else MaxAgents(width, height)
  {
    if MaxAgents(width, height) < 0 then []
    else seq(MaxAgents(width, height), i requires 0 <= i => StartAt(width, height, i))
  }

  /**
   * `placed` is a list of agents as `place_agents` builds it under `placement`:
   * agent `i` is named `agent<i>`, its start is the `i`-th start of the
   * strategy (any distinct feasible starts for 'random') and the goals are
   * drawn from distinct feasible goals.
   */
  ghost predicate Placed(width: int, height: int, placement: string, placed: seq<CoopPlanner.Agent>) {
    && (forall i :: 0 <= i < |placed| ==> placed[i].name == AgentName(i))
    && (placement == "adjacent" ==> forall i :: 0 <= i < |placed| ==> placed[i].start == StartAt(width, height, i))
    && (placement == "spaced" && |placed| > 0 ==> forall i :: 0 <= i < |placed| ==>
          placed[i].start == StartAt(width, height, SpacedIndex(i, MaxAgents(width, height), |placed|)))
    && (placement == "random" ==> multiset(StartsOf(placed)) <= multiset(FeasibleStartCells(width, height)))
    && multiset(GoalsOf(placed)) <= multiset(GoalCells(width, height))
  }

  /** The starts of a placement are distinct feasible starts. */
  lemma PlacedStartsDistinct(width: int, height: int, placement: string, placed: seq<CoopPlanner.Agent>)
    requires width >= 0 && height >= 0
    requires 0 < |placed| <= MaxAgents(width, height)
    requires placement in {"adjacent", "spaced", "random"} && Placed(width, height, placement, placed)
    ensures Distinct(StartsOf(placed))
    ensures forall i :: 0 <= i < |placed| ==> placed[i].start in FeasibleStartCells(width, height)
  {
    var n := |placed|;
    var maxAgents := MaxAgents(width, height);
    var fs := FeasibleStartCells(width, height);
    assert Distinct(fs) by {
      forall i, j | 0 <= i < j < |fs|
        ensures fs[i] != fs[j]
      {
        StartsDistinct(width, height, i, j);
      }
    }
    forall i | 0 <= i < n
      ensures placed[i].start in fs
    {
      if placement == "adjacent" {
        assert fs[i] == placed[i].start;
      } else if placement == "spaced" {
        SpacedIndexInRange(i, maxAgents, n);
        assert fs[SpacedIndex(i, maxAgents, n)] == placed[i].start;
      } else {
        assert StartsOf(placed)[i] in multiset(StartsOf(placed));
      }
    }
    if placement == "adjacent" {
      forall i, j | 0 <= i < j < n
        ensures StartsOf(placed)[i] != StartsOf(placed)[j]
      {
        StartsDistinct(width, height, i, j);
      }
    } else if placement == "spaced" {
      forall i, j | 0 <= i < j < n
        ensures StartsOf(placed)[i] != StartsOf(placed)[j]
      {
        SpacedIndexInRange(i, maxAgents, n);
        SpacedIndexInRange(j, maxAgents, n);
        SpacedIndexStrict(i, j, maxAgents, n);
        StartsDistinct(width, height, SpacedIndex(i, maxAgents, n), SpacedIndex(j, maxAgents, n));
      }
    } else {
      SampleOfDistinct(fs, StartsOf(placed));
    }
  }

  /**
   * On a warehouse of non-negative size every placement yields agents with
   * pairwise different names, starts and goals; starts are free border cells
   * and goals are free aisle cells, so no agent starts on a goal.
   */
  lemma PlacementWellFormed(width: int, height: int, placement: string, placed: seq<CoopPlanner.Agent>)
    requires width >= 0 && height >= 0
    requires 0 < |placed| <= MaxAgents(width, height)
    requires placement in {"adjacent", "spaced", "random"} && Placed(width, height, placement, placed)
    ensures forall i, j :: 0 <= i < j < |placed| ==> placed[i].name != placed[j].name
    ensures Distinct(StartsOf(placed)) && Distinct(GoalsOf(placed))
    ensures forall i :: 0 <= i < |placed| ==>
      && OnBorder(width, height, placed[i].start)
      && placed[i].start !in Layout(width, height)
      && placed[i].goal !in Layout(width, height)
      && placed[i].start != placed[i].goal
  {
    var n := |placed|;
    var fs := FeasibleStartCells(width, height);
    forall i, j | 0 <= i < j < n
      ensures placed[i].name != placed[j].name
    {
      AgentNamesDistinct(i, j);
    }
    GoalCellsDistinct(width, height);
    SampleOfDistinct(GoalCells(width, height), GoalsOf(placed));
    PlacedStartsDistinct(width, height, placement, placed);
    forall i | 0 <= i < n
      ensures OnBorder(width, height, placed[i].start)
      ensures placed[i].start !in Layout(width, height)
      ensures placed[i].goal !in Layout(width, height)
      ensures placed[i].start != placed[i].goal
    {
      var k :| 0 <= k < |fs| && fs[k] == placed[i].start;
      StartOnBorder(width, height, k);
      assert GoalsOf(placed)[i] in multiset(GoalsOf(placed));
      GoalsAreFree(width, height, placed[i].goal);
      StartsAreNotGoals(width, height, k);
    }
  }
}
