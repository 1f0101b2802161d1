/** What a tick preserves: non-negative counters, monotone unlock flags, and
    the invariant of every state reachable from the initial one. */
module Invariants {
  import opened Wrappers
  import opened State
  import opened Rules
  import opened Simulation
  import opened Catalog
  import opened Placement

  /** Grids with the same layout: buildings that record their own cell keep doing so. */
  lemma SameLayoutKeepsCoords(g: Grid, g': Grid)
    requires SameLayout(g, g') && CoordsMatch(g)
    ensures CoordsMatch(g')
  {
    forall p | p in g'
      ensures g'[p].x == p.0 && g'[p].y == p.1
    {
      SameLayoutAt(g, g', p);
    }
  }

  /** Applying one cell's rule keeps every counter and buffer non-negative. */
  lemma StepCellKeepsValid(w: World, x: int, y: int)
    requires Valid(w)
    ensures Valid(StepCell(w, x, y))
  {
    var p := (x, y);
    if p in w.grid {
      match w.grid[p].kind
      case Miner =>
      case Smelter =>
      case Assembler =>
      case ResearchLab =>
      case Belt =>
      case Storage =>
    }
  }

  /** A full tick from a state with no negative counter or buffer yields another. */
  lemma TickKeepsValid(w: World)
    requires Valid(w)
    ensures Valid(TickWorld(w))
  {
    forall v: World, x: int, y: int | Valid(v)
      ensures Valid(StepCell(v, x, y))
    {
      StepCellKeepsValid(v, x, y);
    }
    TickPreserves(Valid, w);
  }

  /** No unlock flag is lowered and research does not decrease. */
  predicate Advances(w: World, w': World) {
    && (w.unlocks.belts ==> w'.unlocks.belts)
    && (w.unlocks.storage ==> w'.unlocks.storage)
    && (w.unlocks.circuits ==> w'.unlocks.circuits)
    && w'.pool.research >= w.pool.research
  }

  lemma StepCellAdvances(w: World, x: int, y: int)
    ensures Advances(w, StepCell(w, x, y))
  {
  }

  /** Over a full tick no unlock flag goes from true back to false, and
      research never decreases. */
  lemma TickAdvances(w: World)
    ensures Advances(w, TickWorld(w))
  {
    var P := (v: World) => Advances(w, v);
    forall v: World, x: int, y: int | P(v)
      ensures P(StepCell(v, x, y))
    {
      StepCellAdvances(v, x, y);
    }
    TickPreserves(P, w);
  }

  /** Each flag is up exactly when research has reached its threshold. */
  predicate UnlocksMatchResearch(w: World) {
    && (w.unlocks.belts <==> w.pool.research >= BeltsAt)
    && (w.unlocks.storage <==> w.pool.research >= StorageAt)
    && (w.unlocks.circuits <==> w.pool.research >= CircuitsAt)
  }

  /** No belt holds any iron. */
  predicate BeltsEmpty(g: Grid) {
    forall p :: p in g && g[p].kind == Belt ==> g[p].buffer.Iron() == 0
  }

  /** What holds of every state reachable from the initial state by ticks,
      placements and deletions. */
  predicate Inv(w: World) {
    Valid(w) && Bounded(w.grid) && CoordsMatch(w.grid) && UnlocksMatchResearch(w) && BeltsEmpty(w.grid)
  }

  lemma InitInv()
    ensures Inv(Init())
  {
  }

  /** A grid edit confined to the cell `p`, which holds no belt, keeps every
      belt empty and every building on the grid. */
  lemma OwnCellEditKeepsShape(g: Grid, g': Grid, p: Pos)
    requires SameLayout(g, g') && BeltsEmpty(g) && Bounded(g)
    requires p in g' && g' == g[p := g'[p]]
    requires p in g && g[p].kind != Belt
    ensures BeltsEmpty(g') && Bounded(g')
  {
    SameLayoutAt(g, g', p);
  }

  lemma StepCellKeepsInv(w: World, x: int, y: int)
    requires Inv(w)
    ensures Inv(StepCell(w, x, y))
  {
    var p := (x, y);
    var r := StepCell(w, x, y);
    StepCellKeepsValid(w, x, y);
    StepCellKeepsLayout(w, x, y);
    SameLayoutKeepsCoords(w.grid, r.grid);
    if p in w.grid {
      match w.grid[p].kind
      case Miner =>
        OwnCellEditKeepsShape(w.grid, r.grid, p);
      case Smelter =>
      case Assembler =>
      case ResearchLab =>
      case Belt =>
        assert !BeltMoves(w.grid, w.grid[p]);
      case Storage =>
        OwnCellEditKeepsShape(w.grid, r.grid, p);
    }
  }

  /** A tick keeps the reachable-state invariant: in particular every unlock
      flag stays tied to its research threshold and no belt ever holds iron,
      so belts never move anything in a reachable state. */
  lemma TickKeepsInv(w: World)
    requires Inv(w)
    ensures Inv(TickWorld(w))
  {
    forall v: World, x: int, y: int | Inv(v)
      ensures Inv(StepCell(v, x, y))
    {
      StepCellKeepsInv(v, x, y);
    }
    TickPreserves(Inv, w);
  }

  /** A click, whether it places, deletes or does nothing, keeps the
      reachable-state invariant: a new building has an empty buffer and
      records its own cell, and money never drops below zero. */
  lemma ClickKeepsInv(w: World, x: int, y: int, selected: string, keys: set<string>)
    requires Inv(w)
    ensures Inv(Click(w, x, y, selected, keys))
  {
    var r := Click(w, x, y, selected, keys);
    if Places(w, x, y, selected) {
      var p := (x, y);
      forall q | q in r.grid
        ensures r.grid[q].buffer.Iron() >= 0 && InBounds(q.0, q.1)
        ensures r.grid[q].x == q.0 && r.grid[q].y == q.1
        ensures r.grid[q].kind == Belt ==> r.grid[q].buffer.Iron() == 0
      {
        if q != p {
          assert r.grid[q] == w.grid[q];
        }
      }
    }
  }

  /** What the player and the timer can do: one production tick, or one click. */
  datatype Event = TickEvent | ClickEvent(x: int, y: int, selected: string, keys: set<string>)

  /** The world after a sequence of events, in order. */
  function Run(w: World, es: seq<Event>): World
    decreases |es|
  {
    if |es| == 0 then w
    else
      var v := Run(w, es[..|es| - 1]);
      match es[|es| - 1]
      case TickEvent => TickWorld(v)
      case ClickEvent(x, y, selected, keys) => Click(v, x, y, selected, keys)
  }

  /** Every state reachable from the start satisfies the invariant: counters
      and buffers are non-negative, each unlock flag is up exactly when
      research has reached its threshold, and no belt holds iron. */
  lemma {:induction false} ReachableInv(es: seq<Event>)
    ensures Inv(Run(Init(), es))
    decreases |es|
  {
    if |es| == 0 {
      InitInv();
    } else {
      var v := Run(Init(), es[..|es| - 1]);
      ReachableInv(es[..|es| - 1]);
      match es[|es| - 1]
      case TickEvent =>
        TickKeepsInv(v);
      case ClickEvent(x, y, selected, keys) =>
        ClickKeepsInv(v, x, y, selected, keys);
    }
  }
}
