/** Concrete runs: the opening of a game, and the belt race in which one unit
    of iron crosses two belts in a single tick. */
module Scenarios {
  import opened Wrappers
  import opened State
  import opened Rules
  import opened Simulation
  import opened Placement

  /** Every building stands in row 0 left of column `k`. */
  predicate FirstRowOnly(g: Grid, k: int) {
    forall p :: p in g ==> p.1 == 0 && 0 <= p.0 < k
  }

  /** A factory confined to the first `k` cells of row 0 ticks like a scan of
      just those cells: the other 600 - k cells are empty and do nothing. */
  lemma {:induction false} RowsOfFirstRow(w: World, k: int, m: int)
    requires 0 <= k <= W && 1 <= m <= H && FirstRowOnly(w.grid, k)
    ensures RunRows(StepCell, w, m) == RunRow(StepCell, w, 0, k)
    decreases m
  {
    if m == 1 {
      RunRowSkipsGap(w, 0, k, W);
    } else {
      RowsOfFirstRow(w, k, m - 1);
      var v := RunRow(StepCell, w, 0, k);
      RunRowKeepsLayout(w, 0, k);
      SameLayoutKeys(w.grid, v.grid);
      RunRowSkipsGap(v, m - 1, 0, W);
    }
  }

  lemma TickOfFirstRow(w: World, k: int)
    requires 0 <= k <= W && FirstRowOnly(w.grid, k)
    ensures TickWorld(w) == RunRow(StepCell, w, 0, k)
  {
    RowsOfFirstRow(w, k, H);
  }

  /** A miner at (0, 0) with the given iron entry, and nothing else. */
  function LoneMiner(iron: Option<int>): Grid {
    map[(0, 0) := Building(Miner, Buffer(iron), 0, 0, None)]
  }

  /** A lone miner's tick: one iron into the pool and one into its buffer. */
  lemma LoneMinerTick(w: World, iron: Option<int>)
    requires w.grid == LoneMiner(iron)
    ensures TickWorld(w) ==
      w.(pool := w.pool.(iron := w.pool.iron + 1), grid := LoneMiner(Some(iron.GetOr(0) + 1)))
  {
    TickOfFirstRow(w, 1);
    assert RunRow(StepCell, w, 0, 1) == StepCell(w, 0, 0);
  }

  /** The lone miner (holding 2) with a smelter placed at (1, 0). */
  function MinerAndSmelter(): Grid {
    LoneMiner(Some(2))[(1, 0) := Building(Smelter, Buffer(None), 1, 0, None)]
  }

  /** The miner is scanned first and raises iron to 3; the smelter then turns
      2 of it into 1 energy. */
  lemma MinerAndSmelterTick(w: World)
    requires w.grid == MinerAndSmelter() && w.pool.iron == 2 && w.pool.energy == 0
    ensures TickWorld(w).pool.iron == 1 && TickWorld(w).pool.energy == 1
  {
    TickOfFirstRow(w, 2);
    var v := StepCell(w, 0, 0);
    assert v.pool.iron == 3 && v.pool.energy == 0 && (1, 0) in v.grid && v.grid[(1, 0)].kind == Smelter;
    assert RunRow(StepCell, w, 0, 1) == v;
    assert RunRow(StepCell, w, 0, 2) == StepCell(v, 1, 0);
  }

  /** The opening, from the start or any other empty factory with 50 money
      and nothing else: a miner at (0, 0) costs 10; two ticks make 2 iron; a
      smelter at (1, 0) costs 20; in the next tick the miner (scanned first)
      brings iron to 3 and the smelter turns 2 of it into 1 energy. */
  lemma Opening(w: World)
    requires w.grid == map[] && w.pool == Pool(0, 0, 0, 50, 0)
    ensures var w1 := Click(w, 0, 0, "miner", {});
      var w2 := TickWorld(TickWorld(w1));
      var w3 := Click(w2, 1, 0, "smelter", {});
      var w4 := TickWorld(w3);
      && w1.pool.money == 40
      && w2.pool.iron == 2
      && w3.pool.money == 20
      && w4.pool.iron == 1 && w4.pool.energy == 1
  {
    var w1 := Click(w, 0, 0, "miner", {});
    assert w1.grid == LoneMiner(None);
    LoneMinerTick(w1, None);
    var t1 := TickWorld(w1);
    LoneMinerTick(t1, Some(1));
    var w2 := TickWorld(t1);
    var w3 := Click(w2, 1, 0, "smelter", {});
    assert w3.grid == MinerAndSmelter();
    MinerAndSmelterTick(w3);
  }

  /** Two right-facing belts at (0, 0) and (1, 0) feeding a storage at
      (2, 0), with one unit of iron in the buffer at column `c` (0, 1 or 2). */
  function BeltLineAt(c: int): Grid {
    map[(0, 0) := Building(Belt, Buffer(Some(if c == 0 then 1 else 0)), 0, 0, Some(Right)),
        (1, 0) := Building(Belt, Buffer(if c == 0 then None else Some(if c == 1 then 1 else 0)), 1, 0, Some(Right)),
        (2, 0) := Building(Storage, Buffer(if c == 2 then Some(1) else None), 2, 0, None)]
  }

  /** The first belt hands its unit to the second. */
  lemma BeltRaceFirstPush(w: World)
    requires w.grid == BeltLineAt(0)
    ensures StepCell(w, 0, 0) == w.(grid := BeltLineAt(1))
  {
    var b := w.grid[(0, 0)];
    assert BeltTarget(b) == (1, 0);
    assert BeltMoves(w.grid, b);
    var g1 := SetIron(w.grid, (0, 0), 0);
    var g2 := SetIron(g1, (1, 0), 1);
    assert StepCell(w, 0, 0) == w.(grid := g2);
    assert g2 == BeltLineAt(1);
  }

  /** The second belt, scanned next, passes the same unit on. */
  lemma BeltRaceSecondPush(w: World)
    requires w.grid == BeltLineAt(1)
    ensures StepCell(w, 1, 0) == w.(grid := BeltLineAt(2))
  {
    var b := w.grid[(1, 0)];
    assert BeltTarget(b) == (2, 0);
    assert BeltMoves(w.grid, b);
    var g1 := SetIron(w.grid, (1, 0), 0);
    var g2 := SetIron(g1, (2, 0), 1);
    assert StepCell(w, 1, 0) == w.(grid := g2);
    assert g2 == BeltLineAt(2);
  }

  /** The storage, scanned last, finds the pool empty and does nothing. */
  lemma BeltRaceStorageIdle(w: World)
    requires w.grid == BeltLineAt(2) && w.pool.iron == 0
    ensures StepCell(w, 2, 0) == w
  {
  }

  /** The scan-order race: the first belt pushes its unit into the second,
      which is scanned next and pushes the same unit on, so after one tick it
      has travelled two cells (the storage then finds the pool empty). */
  lemma BeltRaceMovesTwice(w: World)
    requires w.grid == BeltLineAt(0) && w.pool.iron == 0
    ensures var r := TickWorld(w);
      && IronAt(r.grid, (0, 0)) == 0
      && IronAt(r.grid, (1, 0)) == 0
      && IronAt(r.grid, (2, 0)) == 1
      && r.pool == w.pool
  {
    TickOfFirstRow(w, 3);
    BeltRaceFirstPush(w);
    var v1 := StepCell(w, 0, 0);
    assert RunRow(StepCell, w, 0, 1) == v1;
    BeltRaceSecondPush(v1);
    var v2 := StepCell(v1, 1, 0);
    assert RunRow(StepCell, w, 0, 2) == v2;
    BeltRaceStorageIdle(v2);
    assert RunRow(StepCell, w, 0, 3) == StepCell(v2, 2, 0);
  }
}
