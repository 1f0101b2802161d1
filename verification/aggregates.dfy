/** Iron totals over the grid: the "stored iron" figure (iron held by storage
    buildings), summed by the same row-major scan the HUD uses, and the iron
    held in all buffers. */
module Aggregates {
  import opened Wrappers
  import opened State
  import opened Rules
  import opened Simulation

  /** The iron counted at `p`: the buffer of the building there when it is of
      kind `only` (of any kind when `only` is None), otherwise 0. */
  function CountedIron(g: Grid, only: Option<Kind>, p: Pos): int {
    if p in g && (only.None? || g[p].kind == only.value) then IronAt(g, p) else 0
  }

  /** Counted iron over the first `n` cells of row `y`. (The grid is named in
      the termination measure only so that a sum of literal length is not
      unrolled eagerly.) */
  function RowIron(g: Grid, only: Option<Kind>, y: int, n: int): int
    requires 0 <= n <= W
    decreases n, g
  {
    if n == 0 then 0 else RowIron(g, only, y, n - 1) + CountedIron(g, only, (n - 1, y))
  }

  /** Counted iron over the first `m` rows. */
  function GridIron(g: Grid, only: Option<Kind>, m: int): int
    requires 0 <= m <= H
    decreases m, g
  {
    if m == 0 then 0 else GridIron(g, only, m - 1) + RowIron(g, only, m - 1, W)
  }

  /** Iron held by storage buildings, as the HUD reports it. */
  function StoredIron(g: Grid): int {
    GridIron(g, Some(Storage), H)
  }

  /** Iron held in the buffers of all buildings. */
  function BufferedIron(g: Grid): int {
    GridIron(g, None, H)
  }

  /** The HUD's stored-iron scan: rows top to bottom, cells left to right,
      adding each storage building's iron (a missing entry counting 0). */
  method StoredIronScan(g: Grid) returns (s: int)
    ensures s == StoredIron(g)
  {
    s := 0;
    var y := 0;
    while y < H
      invariant 0 <= y <= H
      invariant s == GridIron(g, Some(Storage), y)
    {
      var x := 0;
      var row := 0;
      while x < W
        invariant 0 <= x <= W
        invariant row == RowIron(g, Some(Storage), y, x)
      {
        if (x, y) in g && g[(x, y)].kind == Storage {
          row := row + g[(x, y)].buffer.Iron();
        }
        x := x + 1;
      }
      s := s + row;
      y := y + 1;
    }
  }

  /** Row sums are non-negative when no buffer is negative. */
  lemma {:induction false} RowIronNonNeg(g: Grid, only: Option<Kind>, y: int, n: int)
    requires BuffersNonNeg(g) && 0 <= n <= W
    ensures RowIron(g, only, y, n) >= 0
    decreases n
  {
    if n > 0 {
      RowIronNonNeg(g, only, y, n - 1);
    }
  }

  /** The stored-iron figure is never negative when no buffer is. */
  lemma {:induction false} GridIronNonNeg(g: Grid, only: Option<Kind>, m: int)
    requires BuffersNonNeg(g) && 0 <= m <= H
    ensures GridIron(g, only, m) >= 0
    decreases m
  {
    if m > 0 {
      GridIronNonNeg(g, only, m - 1);
      RowIronNonNeg(g, only, m - 1, W);
    }
  }

  /** The two grids count the same iron everywhere except possibly at `p`. */
  ghost predicate AgreeExcept(g: Grid, g': Grid, only: Option<Kind>, p: Pos) {
    forall q :: q != p ==> CountedIron(g', only, q) == CountedIron(g, only, q)
  }

  /** A change at one cell moves a row sum by that cell's change, if the cell
      lies within the summed part of the row. */
  lemma {:induction false} RowIronPoint(g: Grid, g': Grid, only: Option<Kind>, p: Pos, y: int, n: int)
    requires AgreeExcept(g, g', only, p) && 0 <= n <= W
    ensures RowIron(g', only, y, n) == RowIron(g, only, y, n) +
      (if p.1 == y && 0 <= p.0 < n then CountedIron(g', only, p) - CountedIron(g, only, p) else 0)
    decreases n
  {
    if n > 0 {
      RowIronPoint(g, g', only, p, y, n - 1);
    }
  }

  lemma {:induction false} GridIronPoint(g: Grid, g': Grid, only: Option<Kind>, p: Pos, m: int)
    requires AgreeExcept(g, g', only, p) && 0 <= m <= H
    ensures GridIron(g', only, m) == GridIron(g, only, m) +
      (if 0 <= p.1 < m && 0 <= p.0 < W then CountedIron(g', only, p) - CountedIron(g, only, p) else 0)
    decreases m
  {
    if m > 0 {
      GridIronPoint(g, g', only, p, m - 1);
      RowIronPoint(g, g', only, p, m - 1, W);
    }
  }

  /** Overwriting one on-grid building's iron changes a total by exactly the
      change in that building's counted iron. */
  lemma SetIronShift(g: Grid, only: Option<Kind>, p: Pos, n: int)
    requires p in g && InBounds(p.0, p.1)
    ensures GridIron(SetIron(g, p, n), only, H) ==
      GridIron(g, only, H) + CountedIron(SetIron(g, p, n), only, p) - CountedIron(g, only, p)
  {
    var g' := SetIron(g, p, n);
    forall q | q != p
      ensures CountedIron(g', only, q) == CountedIron(g, only, q)
    {
      assert g'[p := g[p]] == g;
    }
    GridIronPoint(g, g', only, p, H);
  }

  /** Storage moves iron from the pool into the stored-iron figure: their sum
      is unchanged by the storage rule. */
  lemma StorageConservesStoredIron(w: World, p: Pos)
    requires p in w.grid && w.grid[p].kind == Storage && InBounds(p.0, p.1)
    ensures var r := StorageRule(w, p);
      r.pool.iron + StoredIron(r.grid) == w.pool.iron + StoredIron(w.grid)
  {
    if w.pool.iron > 0 {
      SetIronShift(w.grid, Some(Storage), p, IronAt(w.grid, p) + 1);
    }
  }

  /** A belt moves iron between buffers and never creates or destroys any. */
  lemma BeltConservesBufferedIron(w: World, p: Pos)
    requires p in w.grid && Bounded(w.grid)
    ensures var r := BeltRule(w, p);
      r.pool == w.pool && BufferedIron(r.grid) == BufferedIron(w.grid)
  {
    var b := w.grid[p];
    if BeltMoves(w.grid, b) {
      var t := BeltTarget(b);
      if t != p {
        var g1 := SetIron(w.grid, p, b.buffer.Iron() - 1);
        SetIronShift(w.grid, None, p, b.buffer.Iron() - 1);
        SetIronShift(g1, None, t, IronAt(g1, t) + 1);
      }
    }
  }

  /** No building that makes or consumes iron: only belts, storage and labs. */
  predicate NoIronConverters(g: Grid) {
    forall p :: p in g ==> g[p].kind != Miner && g[p].kind != Smelter && g[p].kind != Assembler
  }

  /** Same layout, same kinds on the same (on-grid) cells. */
  lemma SameLayoutKeepsKinds(g: Grid, g': Grid)
    requires SameLayout(g, g')
    ensures Bounded(g) ==> Bounded(g')
    ensures NoIronConverters(g) ==> NoIronConverters(g')
  {
    forall p | p in g'
      ensures p in g && g'[p].kind == g[p].kind
    {
      SameLayoutAt(g, g', p);
    }
  }

  /** In a factory without iron converters, one cell step keeps the iron in
      the pool plus the iron in all buffers. */
  lemma StepCellConservesIron(w: World, x: int, y: int)
    requires Bounded(w.grid) && NoIronConverters(w.grid)
    ensures var r := StepCell(w, x, y);
      r.pool.iron + BufferedIron(r.grid) == w.pool.iron + BufferedIron(w.grid)
  {
    var p := (x, y);
    if p in w.grid {
      match w.grid[p].kind
      case Belt =>
        BeltConservesBufferedIron(w, p);
      case Storage =>
        if w.pool.iron > 0 {
          SetIronShift(w.grid, None, p, IronAt(w.grid, p) + 1);
        }
      case ResearchLab =>
      case _ =>
    }
  }

  /** Belts and storage only move iron: over a whole tick of a factory with no
      miner, smelter or assembler, pool iron plus buffered iron is unchanged,
      belts pushing twice in one tick included. */
  lemma TickConservesIron(w: World)
    requires Bounded(w.grid) && NoIronConverters(w.grid)
    ensures var r := TickWorld(w);
      r.pool.iron + BufferedIron(r.grid) == w.pool.iron + BufferedIron(w.grid)
  {
    var total := w.pool.iron + BufferedIron(w.grid);
    var P := (v: World) =>
      Bounded(v.grid) && NoIronConverters(v.grid) && v.pool.iron + BufferedIron(v.grid) == total;
    forall v: World, x: int, y: int | P(v)
      ensures P(StepCell(v, x, y))
    {
      StepCellConservesIron(v, x, y);
      StepCellKeepsLayout(v, x, y);
      SameLayoutKeepsKinds(v.grid, StepCell(v, x, y).grid);
    }
    TickPreserves(P, w);
  }

  /** 1 when a building of kind `k` stands at `p`, else 0. */
  function KindAt(g: Grid, k: Kind, p: Pos): int {
    if p in g && g[p].kind == k then 1 else 0
  }

  /** Buildings of kind `k` among the first `n` cells of row `y`. */
  function RowCount(g: Grid, k: Kind, y: int, n: int): int
    requires 0 <= n <= W
    decreases n, g
  {
    if n == 0 then 0 else RowCount(g, k, y, n - 1) + KindAt(g, k, (n - 1, y))
  }

  /** Buildings of kind `k` in the first `m` rows. */
  function GridCount(g: Grid, k: Kind, m: int): int
    requires 0 <= m <= H
    decreases m, g
  {
    if m == 0 then 0 else GridCount(g, k, m - 1) + RowCount(g, k, m - 1, W)
  }

  /** Counting buildings looks only at the layout. */
  lemma {:induction false} RowCountLayout(g: Grid, g': Grid, k: Kind, y: int, n: int)
    requires SameLayout(g, g') && 0 <= n <= W
    ensures RowCount(g', k, y, n) == RowCount(g, k, y, n)
    decreases n
  {
    if n > 0 {
      RowCountLayout(g, g', k, y, n - 1);
      SameLayoutAt(g, g', (n - 1, y));
    }
  }

  /** Every building is a miner. */
  predicate AllMiners(g: Grid) {
    forall p :: p in g ==> g[p].kind == Miner
  }

  /** Scanning a row of miners credits the pool once per miner scanned. */
  lemma {:induction false} RowCreditsMiners(w: World, y: int, n: int)
    requires AllMiners(w.grid) && 0 <= n <= W
    ensures RunRow(StepCell, w, y, n).pool.iron == w.pool.iron + RowCount(w.grid, Miner, y, n)
    decreases n
  {
    if n > 0 {
      RowCreditsMiners(w, y, n - 1);
      var v := RunRow(StepCell, w, y, n - 1);
      RunRowKeepsLayout(w, y, n - 1);
      SameLayoutAt(w.grid, v.grid, (n - 1, y));
      assert RunRow(StepCell, w, y, n) == StepCell(v, n - 1, y);
    }
  }

  lemma {:induction false} RowsCreditMiners(w: World, m: int)
    requires AllMiners(w.grid) && 0 <= m <= H
    ensures RunRows(StepCell, w, m).pool.iron == w.pool.iron + GridCount(w.grid, Miner, m)
    decreases m
  {
    if m > 0 {
      RowsCreditMiners(w, m - 1);
      var v := RunRows(StepCell, w, m - 1);
      RunRowsKeepLayout(w, m - 1);
      RowCountLayout(w.grid, v.grid, Miner, m - 1, W);
      forall p | p in v.grid
        ensures v.grid[p].kind == Miner
      {
        SameLayoutAt(w.grid, v.grid, p);
      }
      RowCreditsMiners(v, m - 1, W);
    }
  }

  /** Scanning the first `n` cells of row `y` of a factory of miners adds
      exactly one unit to the buffer of each miner scanned and leaves every
      other buffer as it was. */
  lemma {:induction false} RowFeedsMiners(w: World, y: int, n: int)
    requires AllMiners(w.grid) && 0 <= n <= W
    ensures forall p :: p in w.grid ==>
      IronAt(RunRow(StepCell, w, y, n).grid, p) ==
        IronAt(w.grid, p) + (if p.1 == y && 0 <= p.0 < n then 1 else 0)
    decreases n
  {
    if n > 0 {
      RowFeedsMiners(w, y, n - 1);
      var v := RunRow(StepCell, w, y, n - 1);
      RunRowKeepsLayout(w, y, n - 1);
      var q := (n - 1, y);
      SameLayoutAt(w.grid, v.grid, q);
      SameLayoutKeys(w.grid, v.grid);
      assert RunRow(StepCell, w, y, n) == StepCell(v, n - 1, y);
      if q in v.grid {
        var r := MinerRule(v, q);
        forall p | p in w.grid
          ensures IronAt(r.grid, p) == IronAt(v.grid, p) + (if p == q then 1 else 0)
        {
        }
      }
    }
  }

  /** The same over the first `m` complete rows. */
  lemma {:induction false} RowsFeedMiners(w: World, m: int)
    requires AllMiners(w.grid) && 0 <= m <= H
    ensures forall p :: p in w.grid ==>
      IronAt(RunRows(StepCell, w, m).grid, p) ==
        IronAt(w.grid, p) + (if 0 <= p.1 < m && 0 <= p.0 < W then 1 else 0)
    decreases m
  {
    if m > 0 {
      RowsFeedMiners(w, m - 1);
      var v := RunRows(StepCell, w, m - 1);
      RunRowsKeepLayout(w, m - 1);
      SameLayoutKeys(w.grid, v.grid);
      forall p | p in v.grid
        ensures v.grid[p].kind == Miner
      {
        SameLayoutAt(w.grid, v.grid, p);
      }
      RowFeedsMiners(v, m - 1, W);
    }
  }

  /** Every cell is visited exactly once per tick: in a factory of miners each
      miner on the grid gains exactly one unit in its own buffer (one off the
      grid, never scanned, gains nothing), and the pool gains one per miner. */
  lemma TickCreditsEachMiner(w: World)
    requires AllMiners(w.grid)
    ensures TickWorld(w).pool.iron == w.pool.iron + GridCount(w.grid, Miner, H)
    ensures forall p :: p in w.grid ==>
      IronAt(TickWorld(w).grid, p) == IronAt(w.grid, p) + (if InBounds(p.0, p.1) then 1 else 0)
  {
    RowsCreditMiners(w, H);
    RowsFeedMiners(w, H);
  }
}
