/** The per-kind tick rules. Each rule reads the global pool and the grid and
    either applies its whole transfer or changes nothing. */
module Rules {
  import opened Wrappers
  import opened State

  /** Research needed for each unlock flag. */
  const BeltsAt: int := 10
  const StorageAt: int := 20
  const CircuitsAt: int := 40

  /** The unlock checks run right after a research credit: a flag is raised
      once research reaches its threshold and is never lowered. */
  function Recheck(u: Unlocks, research: int): (r: Unlocks)
    ensures r.belts <==> u.belts || research >= BeltsAt
    ensures r.storage <==> u.storage || research >= StorageAt
    ensures r.circuits <==> u.circuits || research >= CircuitsAt
  {
    var belts := if research >= BeltsAt && !u.belts then true else u.belts;
    var storage := if research >= StorageAt && !u.storage then true else u.storage;
    var circuits := if research >= CircuitsAt && !u.circuits then true else u.circuits;
    Unlocks(belts, storage, circuits)
  }

  /** Miner: one iron into the pool and one into its own buffer, unconditionally. */
  function MinerRule(w: World, p: Pos): (r: World)
    requires p in w.grid
    ensures r.pool == w.pool.(iron := w.pool.iron + 1)
    ensures r.unlocks == w.unlocks
    ensures SameLayout(w.grid, r.grid)
    ensures p in r.grid && r.grid[p].buffer.iron == Some(IronAt(w.grid, p) + 1)
    ensures r.grid == w.grid[p := r.grid[p]]
  {
    w.(pool := w.pool.(iron := w.pool.iron + 1), grid := SetIron(w.grid, p, IronAt(w.grid, p) + 1))
  }

  /** Smelter: two iron become one energy, or nothing happens. */
  function SmelterRule(w: World): (r: World)
    ensures r.grid == w.grid && r.unlocks == w.unlocks
    ensures w.pool.iron >= 2 ==> r.pool == w.pool.(iron := w.pool.iron - 2, energy := w.pool.energy + 1)
    ensures w.pool.iron < 2 ==> r == w
    ensures PoolNonNeg(w.pool) ==> PoolNonNeg(r.pool)
  {
    if w.pool.iron >= 2 then
      w.(pool := w.pool.(iron := w.pool.iron - 2, energy := w.pool.energy + 1))
    else
      w
  }

  /** Assembler: one iron and one energy become one gear, or nothing happens. */
  function AssemblerRule(w: World): (r: World)
    ensures r.grid == w.grid && r.unlocks == w.unlocks
    ensures w.pool.iron >= 1 && w.pool.energy >= 1 ==>
      r.pool == w.pool.(iron := w.pool.iron - 1, energy := w.pool.energy - 1, gear := w.pool.gear + 1)
    ensures !(w.pool.iron >= 1 && w.pool.energy >= 1) ==> r == w
    ensures PoolNonNeg(w.pool) ==> PoolNonNeg(r.pool)
  {
    if w.pool.iron >= 1 && w.pool.energy >= 1 then
      w.(pool := w.pool.(iron := w.pool.iron - 1, energy := w.pool.energy - 1, gear := w.pool.gear + 1))
    else
      w
  }

  /** Research lab: two gears become one research point, after which the unlock
      flags are rechecked; or nothing happens. */
  function LabRule(w: World): (r: World)
    ensures r.grid == w.grid
    ensures w.pool.gear >= 2 ==> r.pool == w.pool.(gear := w.pool.gear - 2, research := w.pool.research + 1)
    ensures w.pool.gear >= 2 ==>
      && (r.unlocks.belts <==> w.unlocks.belts || r.pool.research >= BeltsAt)
      && (r.unlocks.storage <==> w.unlocks.storage || r.pool.research >= StorageAt)
      && (r.unlocks.circuits <==> w.unlocks.circuits || r.pool.research >= CircuitsAt)
    ensures w.pool.gear < 2 ==> r == w
    ensures PoolNonNeg(w.pool) ==> PoolNonNeg(r.pool)
  {
    if w.pool.gear >= 2 then
      var p := w.pool.(gear := w.pool.gear - 2, research := w.pool.research + 1);
      World(p, w.grid, Recheck(w.unlocks, p.research))
    else
      w
  }

  /** The cell a belt pushes into: one step from the building's own recorded
      position in its direction, to the right when no direction is set. */
  function BeltTarget(b: Building): (t: Pos)
    ensures b.dir.None? ==> t == (b.x + 1, b.y)
    ensures b.dir == Some(Up) ==> t == (b.x, b.y - 1)
    ensures b.dir == Some(Down) ==> t == (b.x, b.y + 1)
    ensures b.dir == Some(Left) ==> t == (b.x - 1, b.y)
    ensures b.dir == Some(Right) ==> t == (b.x + 1, b.y)
  {
    var d := b.dir.GetOr(Right);
    (b.x + d.DX(), b.y + d.DY())
  }

  /** A belt moves only when its target cell is on the grid and occupied and
      its own buffer holds iron. */
  predicate BeltMoves(g: Grid, b: Building) {
    var t := BeltTarget(b);
    InBounds(t.0, t.1) && t in g && b.buffer.Iron() > 0
  }

  /** Belt: moves one iron from its own buffer to the target's buffer. The
      decrement is written first and the increment reads the grid after it, so
      a target that is the belt's own cell ends where it began. */
  function BeltRule(w: World, p: Pos): (r: World)
    requires p in w.grid
    ensures r.pool == w.pool && r.unlocks == w.unlocks
    ensures SameLayout(w.grid, r.grid)
    ensures !BeltMoves(w.grid, w.grid[p]) ==> r == w
    ensures BeltMoves(w.grid, w.grid[p]) ==>
      var t := BeltTarget(w.grid[p]);
      && p in r.grid && t in r.grid
      && r.grid == w.grid[p := r.grid[p]][t := r.grid[t]]
      && (t != p ==>
            && IronAt(r.grid, p) == IronAt(w.grid, p) - 1
            && IronAt(r.grid, t) == IronAt(w.grid, t) + 1)
      && (t == p ==> r.grid == w.grid)
  {
    var b := w.grid[p];
    if BeltMoves(w.grid, b) then
      var t := BeltTarget(b);
      var g1 := SetIron(w.grid, p, b.buffer.Iron() - 1);
      var g2 := SetIron(g1, t, IronAt(g1, t) + 1);
      assert t == p ==> g2 == w.grid by {
        if t == p {
          assert g2[p] == w.grid[p];
        }
      }
      w.(grid := g2)
    else
      w
  }

  /** Storage: pulls one iron from the pool into its own buffer when the pool has any. */
  function StorageRule(w: World, p: Pos): (r: World)
    requires p in w.grid
    ensures r.unlocks == w.unlocks
    ensures SameLayout(w.grid, r.grid)
    ensures p in r.grid && r.grid == w.grid[p := r.grid[p]]
    ensures w.pool.iron > 0 ==>
      r.pool == w.pool.(iron := w.pool.iron - 1) && IronAt(r.grid, p) == IronAt(w.grid, p) + 1
    ensures w.pool.iron <= 0 ==> r == w
    ensures r.pool.iron + IronAt(r.grid, p) == w.pool.iron + IronAt(w.grid, p)
  {
    if w.pool.iron > 0 then
      w.(pool := w.pool.(iron := w.pool.iron - 1), grid := SetIron(w.grid, p, IronAt(w.grid, p) + 1))
    else
      w
  }

  /** The activation predicate every kind registers; it is constantly true. */
  predicate Active(b: Building) {
    true
  }

  /** Run the rule of the building at `p`. */
  function Apply(w: World, p: Pos): (r: World)
    requires p in w.grid
    ensures SameLayout(w.grid, r.grid)
  {
    match w.grid[p].kind
    case Miner => MinerRule(w, p)
    case Smelter => SmelterRule(w)
    case Assembler => AssemblerRule(w)
    case ResearchLab => LabRule(w)
    case Belt => BeltRule(w, p)
    case Storage => StorageRule(w, p)
  }
}
