# Factory simulation core, modelled in Dafny

A model of the browser factory game in `main.js`. The game has a 30 × 20 grid of
buildings, a global resource pool (iron, gear, energy, money, research),
research-gated unlock flags and a production tick that runs every building's
rule in row-major order. The player places buildings by clicking a cell with a
toolbar key selected, or clears a cell with the delete tool. The HUD shows the
iron held by storage buildings.

Modules, one per part of the program:

| file | module | what it holds |
|---|---|---|
| `wrappers.dfy` | `Wrappers` | `Option`; `None` models a JavaScript `undefined` field |
| `state.dfy` | `State` | the pool, unlock flags, buildings, the grid and the world; start state; "same layout" (only buffers differ) |
| `catalog.dfy` | `Catalog` | building costs and catalog keys, lookup of a toolbar key |
| `rules.dfy` | `Rules` | the six tick rules, the unlock re-check and the dispatch on kind |
| `simulation.dfy` | `Simulation` | the row-major tick, as a fold and as the source's nested loops; the generic "kept by every step" argument |
| `invariants.dfy` | `Invariants` | non-negativity, monotone unlocks, the invariant of every reachable state |
| `placement.dfy` | `Placement` | the click handler: bounds, delete, catalog lookup, money and belt direction |
| `aggregates.dfy` | `Aggregates` | the stored-iron sum, iron conservation by belts and storage, one credit per miner per tick |
| `scenarios.dfy` | `Scenarios` | the opening of a game, and the belt race in which one unit crosses two belts in one tick |

Representation choices:

- The grid is a `map<Pos, Building>`. A position with no entry is an empty cell. Only
  in-bounds cells are ever scanned, and placement only writes in-bounds cells.
- Counters are `int`. Non-negativity is proved, not built into the types, so the
  rules' guards are what keeps them at 0 or above.
- `buffer.iron` is `Option<int>`. `None` is the entry a fresh `{}` buffer lacks, and
  every reader treats it as 0 (the source's `|| 0`).
- A belt's `dir` is `Option<Dir>` with four cardinal directions. `None` is an undefined
  `dir`, which the belt rule reads as right.
- The tick rules mutate the shared pool and the buildings in place. Here each rule is a
  function from world to world. Writes happen in the source's order. So when a belt's
  target is the belt's own cell (possible only if the building's recorded `x`/`y`
  disagree with its cell), the decrement and the increment cancel out, as they do in
  the source.
- The tick is `RunRows(StepCell, w, H)`: rows top to bottom, each scanned left to
  right. Each cell sees the world left by the cells before it. `Simulation.Tick` is the
  source's two nested loops and is proved equal to that fold.
- Clicks take the cell coordinates, the selected toolbar key and the set of held keys
  as inputs.

Two facts about main.js that a reader of the game might not expect:

- Placement does not consult the unlock flags (main.js:151-175). Locking is only the
  toolbar buttons being disabled (main.js:126-133). `Placement.LockedBeltStillPlaced`
  states this.
- Every activation predicate is `() => true` (main.js:29, 43, 58, 89, 107, 121).
  `Rules.Active` is constantly true.

## Model

| member | source | states |
|---|---|---|
| `State.Init` | main.js:10-12 | the game starts with 50 money, every other counter 0, all unlock flags down and no buildings |
| `State.SetIron` | main.js:27 | writing a building's iron entry changes that entry only: same layout, the new value is read back, every other cell is untouched |
| `Catalog.Cost` | main.js:19-122 | every kind has a positive placement cost (10, 20, 30, 50, 15, 25) |
| `Catalog.KindNamed` | main.js:158-159 | looking up a toolbar key yields a kind registered under exactly that key, or nothing when no kind has that key |
| `Catalog.KindNamedInvertsName` | main.js:19-122 | each kind is found under its own key; the delete tool and the future circuit factory are not catalog entries |
| `Rules.Recheck` | main.js:72-86 | after a research credit each flag is up exactly when it was up or research reached 10 / 20 / 40; no flag is lowered |
| `Rules.MinerRule` | main.js:24-28 | the miner adds exactly 1 to pool iron and 1 to its own buffer (a missing entry read as 0); nothing else changes |
| `Rules.SmelterRule` | main.js:36-42 | with iron >= 2, iron - 2 and energy + 1; otherwise the world is unchanged; non-negative counters stay non-negative |
| `Rules.AssemblerRule` | main.js:50-57 | with iron >= 1 and energy >= 1, iron - 1, energy - 1, gear + 1; otherwise unchanged; non-negativity kept |
| `Rules.LabRule` | main.js:65-87 | with gear >= 2, gear - 2 and research + 1, then each flag is up exactly when it was or research reached its threshold; otherwise unchanged |
| `Rules.BeltTarget` | main.js:98-100 | a belt pushes to the cell one step from its recorded position in its direction: up is y - 1, down y + 1, left x - 1, right x + 1; to the right when it has no direction |
| `Rules.BeltRule` | main.js:96-106 | a belt moves nothing unless its target is on the grid and occupied and its own iron is positive; then exactly one unit moves from its buffer to the target's, only those two cells change, and pool and flags are untouched |
| `Rules.StorageRule` | main.js:114-119 | with pool iron > 0, one iron moves from the pool to the storage's own buffer, otherwise nothing; pool iron plus that buffer is unchanged either way |
| `Rules.Apply` | main.js:231-232 | running any building's rule leaves the layout (which buildings stand where, facing where) unchanged |
| `Simulation.StepCell` | main.js:229-232 | the body skips an empty cell and otherwise runs that building's rule; the contract states the layout is kept (the `StepCell*` lemmas add validity, monotone flags and iron conservation) |
| `Simulation.TickWorld` | main.js:226-234 | one tick is the row-major scan of all 600 cells, each seeing its predecessors' effects; it keeps the layout |
| `Simulation.TickRow` | main.js:228-233 | the inner loop processes the cells of one row left to right, each exactly once |
| `Simulation.Tick` | main.js:227-234 | the nested loops compute the row-major fold: rows top to bottom, cells left to right, each cell seeing its predecessors' effects |
| `Simulation.RunRowPreserves` | main.js:228-233 | a property kept by every single cell step holds after any prefix of a row scan |
| `Simulation.RunRowsPreserve` | main.js:227-234 | such a property holds after any number of complete rows |
| `Simulation.TickPreserves` | main.js:227-234 | such a property holds after a whole tick |
| `Simulation.StepCellKeepsLayout` | main.js:229-232 | processing a cell never adds, removes, moves or re-aims a building |
| `Simulation.RunRowKeepsLayout` | main.js:228-233 | a row scan keeps the layout |
| `Simulation.RunRowsKeepLayout` | main.js:227-234 | a scan of whole rows keeps the layout |
| `Simulation.RunRowSkipsGap` | main.js:229-230 | empty cells contribute nothing: a scan over a stretch of empty cells leaves the world as it was |
| `Invariants.StepCellKeepsValid` | main.js:24-119 | applying any cell's rule to a world with no negative counter or buffer yields another such world |
| `Invariants.TickKeepsValid` | main.js:227-234 | a whole tick keeps every counter and buffer non-negative |
| `Invariants.StepCellAdvances` | main.js:72-86 | no cell step lowers an unlock flag or decreases research |
| `Invariants.TickAdvances` | main.js:227-234 | over a whole tick no flag goes from up to down and research does not decrease |
| `Invariants.InitInv` | main.js:10-12 | the start state satisfies the reachable-state invariant |
| `Invariants.StepCellKeepsInv` | main.js:96-106 | a cell step keeps the invariant; in particular no belt ever gets iron, because only belts put iron into other buildings' buffers |
| `Invariants.TickKeepsInv` | main.js:227-234 | a tick keeps the reachable-state invariant |
| `Invariants.ClickKeepsInv` | main.js:151-175 | a click keeps it: money stays non-negative, a new building has an empty buffer, stands on the grid and records its own cell |
| `Invariants.ReachableInv` | main.js:10-12 | after any sequence of ticks and clicks from the start, counters and buffers are non-negative, each flag is up exactly when research reached its threshold, and no belt holds iron |
| `Placement.BeltDir` | main.js:166-171 | a new belt faces the direction of the last held arrow key in the order up, down, left, right, and faces right when none is held |
| `Placement.NewBuilding` | main.js:174 | a placed building has an empty buffer, its own cell as coordinates, and a direction exactly when it is a belt |
| `Placement.Click` | main.js:151-175 | out of bounds nothing changes; delete empties exactly the cell; a catalog kind that the money covers, on an empty cell, is placed for exactly its cost; any other click changes nothing |
| `Placement.DeleteClears` | main.js:153-156 | delete removes the cell's building and refunds nothing |
| `Placement.PlaceThenDelete` | main.js:153-162 | placing and then deleting restores the grid but leaves the money debited |
| `Placement.PlaceTwiceRefused` | main.js:161 | a second placement on the same cell changes nothing |
| `Placement.LockedBeltStillPlaced` | main.js:158-174 | a belt is placed even while belts are locked |
| `Aggregates.StoredIronScan` | main.js:303-309 | the HUD's nested scan computes the iron held by storage buildings, a missing entry counting 0 |
| `Aggregates.GridIronNonNeg` | main.js:303-309 | with no negative buffer the stored-iron figure is non-negative |
| `Aggregates.GridIronPoint` | main.js:303-309 | a change at one cell moves the row-major sum by exactly that cell's change when the cell is on the grid |
| `Aggregates.SetIronShift` | main.js:303-309 | overwriting one on-grid building's iron changes a total by exactly the change in that building |
| `Aggregates.StorageConservesStoredIron` | main.js:114-119 | the storage rule keeps pool iron plus stored iron unchanged |
| `Aggregates.BeltConservesBufferedIron` | main.js:101-105 | the belt rule keeps the iron in all buffers and the pool unchanged |
| `Aggregates.StepCellConservesIron` | main.js:229-232 | without miners, smelters or assemblers, a cell step keeps pool iron plus buffered iron |
| `Aggregates.TickConservesIron` | main.js:227-234 | without miners, smelters or assemblers, a whole tick keeps pool iron plus buffered iron, double belt moves included |
| `Aggregates.RowCreditsMiners` | main.js:228-233 | scanning a row of miners adds one iron per miner scanned |
| `Aggregates.RowsCreditMiners` | main.js:227-234 | scanning whole rows of miners adds one iron per miner in them |
| `Aggregates.RowFeedsMiners` | main.js:228-233 | scanning a row prefix of miners adds exactly one unit to the buffer of each miner scanned and none to any other |
| `Aggregates.RowsFeedMiners` | main.js:227-234 | the same over complete rows |
| `Aggregates.TickCreditsEachMiner` | main.js:227-234 | each cell is processed exactly once per tick: in a factory of miners every on-grid miner's own buffer gains exactly one unit, and the pool gains one iron per miner |
| `Scenarios.TickOfFirstRow` | main.js:227-234 | a factory confined to the first cells of row 0 ticks like a scan of just those cells |
| `Scenarios.LoneMinerTick` | main.js:24-28 | a lone miner's tick adds one iron to the pool and one to its buffer |
| `Scenarios.MinerAndSmelterTick` | main.js:36-42 | the miner, scanned first, raises iron from 2 to 3, and the smelter then leaves 1 iron and 1 energy |
| `Scenarios.Opening` | main.js:151-175 | miner at (0,0) → money 40; two ticks → iron 2; smelter at (1,0) → money 20; one tick → iron 1, energy 1 |
| `Scenarios.BeltRaceFirstPush` | main.js:102-105 | the first belt hands its unit to the second |
| `Scenarios.BeltRaceSecondPush` | main.js:102-105 | the second belt, scanned next, passes the same unit on |
| `Scenarios.BeltRaceStorageIdle` | main.js:116 | a storage finding the pool empty does nothing |
| `Scenarios.BeltRaceMovesTwice` | main.js:227-234 | in one tick a unit crosses two belts: the scan-order race is reproduced, not fixed |

## Left out

- Rendering: canvas drawing, the hover preview and `hexToRgba` (main.js:240-293, main.js:353-361). This is output only, and the colour alpha is a float.
- DOM wiring, tooltips, `alert` notifications, `updateUnlocks` button toggling and the HUD text (main.js:126-143, main.js:187-214, main.js:296-311 apart from the sum). These are UI side effects. The notifications fire inside the lab rule, and the model keeps only the flag changes.
- `setInterval` and `requestAnimationFrame` timing (main.js:217-237). A tick is one function application.
- Pixel-to-cell flooring and keydown/keyup tracking (main.js:147-149, main.js:179-184). Cell coordinates and the set of held keys are inputs to `Placement.Click`.
- `save` and `load` through localStorage and JSON (main.js:314-348). This is host I/O on untyped data. A loaded grid can hold buildings whose recorded `x`/`y` differ from their cell, or belts that hold iron. The rules are modelled for such grids, but no reachable state produces them. The belt race scenario therefore starts from such a loaded-style grid.
- Unknown building types in the grid. Only `load` can put them there; a click resolves its key through the catalog first.
- JavaScript numbers are doubles. The model uses unbounded integers, since every counter changes by at most a few units per event.
