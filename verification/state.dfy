/** The simulation state: the global resource pool, the fixed-size grid of
    buildings and the unlock flags. */
module State {
  import opened Wrappers

  /** Grid width and height in cells. */
  const W: int := 30
  const H: int := 20

  /** The shared global counters. */
  datatype Pool = Pool(iron: int, gear: int, energy: int, money: int, research: int)

  /** Research-gated feature flags. */
  datatype Unlocks = Unlocks(belts: bool, storage: bool, circuits: bool)

  /** The four directions a belt can face; screen coordinates, so up is y - 1. */
  datatype Dir = Up | Down | Left | Right {
    function DX(): int {
      match this
      case Left => -1
      case Right => 1
      case _ => 0
    }
    function DY(): int {
      match this
      case Up => -1
      case Down => 1
      case _ => 0
    }
  }

  datatype Kind = Miner | Smelter | Assembler | ResearchLab | Belt | Storage

  /** A building's local store. Only the iron entry is ever used; `None` is an
      entry that was never written, which every reader treats as 0. */
  datatype Buffer = Buffer(iron: Option<int>) {
    function Iron(): int {
      iron.GetOr(0)
    }
  }

  /** A placed building. `x` and `y` are the building's own record of its cell;
      `dir` is set only for belts. */
  datatype Building = Building(kind: Kind, buffer: Buffer, x: int, y: int, dir: Option<Dir>)

  /** A cell position (x, y). */
  type Pos = (int, int)

  /** The grid: the building standing on each occupied cell. A position with
      no entry is an empty cell. */
  type Grid = map<Pos, Building>

  datatype World = World(pool: Pool, grid: Grid, unlocks: Unlocks)

  predicate InBounds(x: int, y: int) {
    0 <= x < W && 0 <= y < H
  }

  /** Every occupied position lies on the grid. */
  predicate Bounded(g: Grid) {
    forall p :: p in g ==> InBounds(p.0, p.1)
  }

  /** The state the program starts in: 50 money, nothing else, nothing built. */
  function Init(): (w: World)
    ensures w.grid == map[]
    ensures w.pool.money == 50
    ensures w.pool.iron == 0 && w.pool.gear == 0 && w.pool.energy == 0 && w.pool.research == 0
    ensures !w.unlocks.belts && !w.unlocks.storage && !w.unlocks.circuits
  {
    World(Pool(0, 0, 0, 50, 0), map[], Unlocks(false, false, false))
  }

  /** The iron in the buffer at `p`; an empty cell or a missing entry reads as 0. */
  function IronAt(g: Grid, p: Pos): int {
    if p in g then g[p].buffer.Iron() else 0
  }

  /** A building with its buffer forgotten: what it is, where it thinks it is
      and where it points. */
  function Strip(b: Building): Building {
    b.(buffer := Buffer(None))
  }

  /** The grid with every buffer forgotten. */
  function Layout(g: Grid): map<Pos, Building> {
    map p | p in g :: Strip(g[p])
  }

  /** Both grids hold the same buildings on the same cells; only buffer
      contents may differ. */
  predicate SameLayout(g: Grid, g': Grid) {
    Layout(g) == Layout(g')
  }

  /** Reading one position of two grids with the same layout. */
  lemma SameLayoutAt(g: Grid, g': Grid, p: Pos)
    requires SameLayout(g, g')
    ensures p in g' <==> p in g
    ensures p in g ==> Strip(g'[p]) == Strip(g[p])
  {
    assert p in Layout(g) <==> p in Layout(g');
  }

  /** Grids with the same layout have the same occupied cells. */
  lemma SameLayoutKeys(g: Grid, g': Grid)
    requires SameLayout(g, g')
    ensures g.Keys == g'.Keys
  {
    assert Layout(g).Keys == g.Keys;
    assert Layout(g').Keys == g'.Keys;
  }

  /** Write `n` into the iron entry of the building at `p`; nothing else changes. */
  function SetIron(g: Grid, p: Pos, n: int): (r: Grid)
    requires p in g
    ensures SameLayout(g, r)
    ensures p in r && r[p].buffer.iron == Some(n) && IronAt(r, p) == n
    ensures r == g[p := r[p]]
  {
    var r := g[p := g[p].(buffer := Buffer(Some(n)))];
    assert Layout(r) == Layout(g);
    r
  }

  predicate PoolNonNeg(p: Pool) {
    p.iron >= 0 && p.gear >= 0 && p.energy >= 0 && p.money >= 0 && p.research >= 0
  }

  /** No building's buffer holds a negative amount of iron. */
  predicate BuffersNonNeg(g: Grid) {
    forall p :: p in g ==> g[p].buffer.Iron() >= 0
  }

  /** Every building records the cell it occupies. */
  predicate CoordsMatch(g: Grid) {
    forall p :: p in g ==> g[p].x == p.0 && g[p].y == p.1
  }

  /** No counter or buffer below zero. */
  predicate Valid(w: World) {
    PoolNonNeg(w.pool) && BuffersNonNeg(w.grid)
  }
}
