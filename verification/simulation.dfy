/** One production tick: a row-major scan that applies each occupied cell's
    rule once, each cell seeing what earlier cells did in the same tick. */
module Simulation {
  import opened Wrappers
  import opened State
  import opened Rules

  /** Process one cell: an empty cell is skipped, an occupied one runs its
      rule (its activation predicate being always true). */
  function StepCell(w: World, x: int, y: int): (r: World)
    ensures SameLayout(w.grid, r.grid)
  {
    if (x, y) in w.grid && Active(w.grid[(x, y)]) then Apply(w, (x, y)) else w
  }

  /** A per-cell step: the world after processing the cell at (x, y). */
  type Step = (World, int, int) -> World

  /** The world after `step` has processed the first `n` cells of row `y`,
      from x = 0 rightwards. (The world is named in the termination measure
      only so that a scan of literal length is not unrolled eagerly.) */
  function RunRow(step: Step, w: World, y: int, n: int): World
    requires 0 <= n <= W
    decreases n, w
  {
    if n == 0 then w else step(RunRow(step, w, y, n - 1), n - 1, y)
  }

  /** The world after the first `m` rows have been processed in full. */
  function RunRows(step: Step, w: World, m: int): World
    requires 0 <= m <= H
    decreases m, w
  {
    if m == 0 then w else RunRow(step, RunRows(step, w, m - 1), m - 1, W)
  }

  /** One whole tick: every row top to bottom, each scanned left to right,
      each cell processed by `StepCell`. */
  function TickWorld(w: World): (r: World)
    ensures SameLayout(w.grid, r.grid)
  {
    RunRowsKeepLayout(w, H);
    RunRows(StepCell, w, H)
  }

  /** The inner loop of the tick: processes the cells of row `y` left to right. */
  method TickRow(r0: World, y: int) returns (r: World)
    ensures r == RunRow(StepCell, r0, y, W)
  {
    r := r0;
    var x := 0;
    while x < W
      invariant 0 <= x <= W
      invariant r == RunRow(StepCell, r0, y, x)
    {
      r := StepCell(r, x, y);
      x := x + 1;
    }
  }

  /** The tick as the source writes it: an outer loop over rows and an inner
      loop over the cells of each row. */
  method Tick(w: World) returns (r: World)
    ensures r == TickWorld(w)
  {
    r := w;
    var y := 0;
    while y < H
      invariant 0 <= y <= H
      invariant r == RunRows(StepCell, w, y)
    {
      r := TickRow(r, y);
      y := y + 1;
    }
  }

  /** `P` is kept by every application of `step`, whatever the cell. */
  ghost predicate KeptByStep(step: Step, P: World -> bool) {
    forall v: World, x: int, y: int :: P(v) ==> P(step(v, x, y))
  }

  /** A property every step keeps holds after any prefix of a row scan. */
  lemma {:induction false} RunRowPreserves(step: Step, P: World -> bool, w: World, y: int, n: int)
    requires 0 <= n <= W
    requires KeptByStep(step, P) && P(w)
    ensures P(RunRow(step, w, y, n))
    decreases n
  {
    if n > 0 {
      RunRowPreserves(step, P, w, y, n - 1);
    }
  }

  /** ... and after any number of complete rows. */
  lemma {:induction false} RunRowsPreserve(step: Step, P: World -> bool, w: World, m: int)
    requires 0 <= m <= H
    requires KeptByStep(step, P) && P(w)
    ensures P(RunRows(step, w, m))
    decreases m
  {
    if m > 0 {
      RunRowsPreserve(step, P, w, m - 1);
      RunRowPreserves(step, P, RunRows(step, w, m - 1), m - 1, W);
    }
  }

  /** ... and therefore after a whole tick. */
  lemma TickPreserves(P: World -> bool, w: World)
    requires KeptByStep(StepCell, P) && P(w)
    ensures P(TickWorld(w))
  {
    RunRowsPreserve(StepCell, P, w, H);
  }

  /** Processing a cell never adds, removes, moves or re-aims a building. */
  lemma StepCellKeepsLayout(w: World, x: int, y: int)
    ensures SameLayout(w.grid, StepCell(w, x, y).grid)
  {
  }

  /** ... so neither does a row scan. */
  lemma RunRowKeepsLayout(w: World, y: int, n: int)
    requires 0 <= n <= W
    ensures SameLayout(w.grid, RunRow(StepCell, w, y, n).grid)
  {
    var P := (v: World) => SameLayout(w.grid, v.grid);
    forall v: World, x: int, y': int | P(v)
      ensures P(StepCell(v, x, y'))
    {
      StepCellKeepsLayout(v, x, y');
    }
    RunRowPreserves(StepCell, P, w, y, n);
  }

  /** ... nor does a scan of whole rows. */
  lemma RunRowsKeepLayout(w: World, m: int)
    requires 0 <= m <= H
    ensures SameLayout(w.grid, RunRows(StepCell, w, m).grid)
  {
    var P := (v: World) => SameLayout(w.grid, v.grid);
    forall v: World, x: int, y: int | P(v)
      ensures P(StepCell(v, x, y))
    {
      StepCellKeepsLayout(v, x, y);
    }
    RunRowsPreserve(StepCell, P, w, m);
  }

  /** No cell of row `y` from column `k` up to (not including) `n` is occupied. */
  predicate RowGap(g: Grid, y: int, k: int, n: int) {
    forall x :: k <= x < n ==> (x, y) !in g
  }

  /** Empty cells do nothing: the scan of a row may stop at the last occupied
      cell without changing the outcome. */
  lemma {:induction false} RunRowSkipsGap(w: World, y: int, k: int, n: int)
    requires 0 <= k <= n <= W
    requires RowGap(w.grid, y, k, n)
    ensures RunRow(StepCell, w, y, n) == RunRow(StepCell, w, y, k)
    decreases n
  {
    if n > k {
      RunRowSkipsGap(w, y, k, n - 1);
      var v := RunRow(StepCell, w, y, n - 1);
      RunRowKeepsLayout(w, y, n - 1);
      SameLayoutAt(w.grid, v.grid, (n - 1, y));
      assert (n - 1, y) !in v.grid;
    }
  }
}
