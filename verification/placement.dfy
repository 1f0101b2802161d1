/** The canvas click: place the selected building on a cell, or clear the
    cell with the delete tool. The cell coordinates, the selected toolbar key
    and the set of held keys are inputs. */
module Placement {
  import opened Wrappers
  import opened State
  import opened Catalog

  /** The toolbar key of the delete tool. */
  const DeleteTool: string := "delete"

  /** Direction of a newly placed belt. The arrow keys are checked in the
      order up, down, left, right, each held key overriding the earlier ones,
      so the last held key in that order wins; with none held the belt faces
      right. */
  function BeltDir(keys: set<string>): (d: Dir)
    ensures d == Up <==>
      "ArrowUp" in keys && "ArrowDown" !in keys && "ArrowLeft" !in keys && "ArrowRight" !in keys
    ensures d == Down <==> "ArrowDown" in keys && "ArrowLeft" !in keys && "ArrowRight" !in keys
    ensures d == Left <==> "ArrowLeft" in keys && "ArrowRight" !in keys
    ensures d == Right <==>
      "ArrowRight" in keys || ("ArrowUp" !in keys && "ArrowDown" !in keys && "ArrowLeft" !in keys)
  {
    var d0 := Right;
    var d1 := if "ArrowUp" in keys then Up else d0;
    var d2 := if "ArrowDown" in keys then Down else d1;
    var d3 := if "ArrowLeft" in keys then Left else d2;
    if "ArrowRight" in keys then Right else d3
  }

  /** A freshly placed building: nothing in its buffer, its own cell as its
      coordinates, and a direction only when it is a belt. */
  function NewBuilding(k: Kind, x: int, y: int, keys: set<string>): (b: Building)
    ensures b.kind == k && b.x == x && b.y == y
    ensures b.buffer.iron.None? && b.buffer.Iron() == 0
    ensures b.dir.Some? <==> k == Belt
    ensures k == Belt ==> b.dir == Some(BeltDir(keys))
  {
    Building(k, Buffer(None), x, y, if k == Belt then Some(BeltDir(keys)) else None)
  }

  /** A click at (x, y) with `selected` chosen places a building: the cell is
      on the grid, the key names a catalog kind, the money covers its cost and
      the cell is empty. Unlock flags play no part. */
  predicate Places(w: World, x: int, y: int, selected: string) {
    && InBounds(x, y)
    && selected != DeleteTool
    && KindNamed(selected).Some?
    && w.pool.money >= Cost(KindNamed(selected).value)
    && (x, y) !in w.grid
  }

  /** The click handler. */
  function Click(w: World, x: int, y: int, selected: string, keys: set<string>): (r: World)
    ensures !InBounds(x, y) ==> r == w
    ensures InBounds(x, y) && selected == DeleteTool ==>
      r.pool == w.pool && r.unlocks == w.unlocks && r.grid == w.grid - {(x, y)}
    ensures Places(w, x, y, selected) ==>
      var k := KindNamed(selected).value;
      && r.pool == w.pool.(money := w.pool.money - Cost(k))
      && r.unlocks == w.unlocks
      && r.grid == w.grid[(x, y) := NewBuilding(k, x, y, keys)]
    ensures !Places(w, x, y, selected) && !(InBounds(x, y) && selected == DeleteTool) ==> r == w
  {
    if !InBounds(x, y) then w
    else if selected == DeleteTool then w.(grid := w.grid - {(x, y)})
    else
      match KindNamed(selected)
      case None => w
      case Some(k) =>
        if w.pool.money >= Cost(k) && (x, y) !in w.grid then
          w.(pool := w.pool.(money := w.pool.money - Cost(k)),
             grid := w.grid[(x, y) := NewBuilding(k, x, y, keys)])
        else w
  }

  /** Deleting removes exactly the clicked cell's building and refunds nothing. */
  lemma DeleteClears(w: World, x: int, y: int, keys: set<string>)
    requires InBounds(x, y)
    ensures Click(w, x, y, DeleteTool, keys) == w.(grid := w.grid - {(x, y)})
  {
  }

  /** A placement debits exactly the cost; deleting it again restores the grid
      but not the money. */
  lemma PlaceThenDelete(w: World, x: int, y: int, selected: string, keys: set<string>)
    requires Places(w, x, y, selected)
    ensures var r := Click(Click(w, x, y, selected, keys), x, y, DeleteTool, keys);
      && r.grid == w.grid
      && r.pool == w.pool.(money := w.pool.money - Cost(KindNamed(selected).value))
  {
    var r1 := Click(w, x, y, selected, keys);
    var r := Click(r1, x, y, DeleteTool, keys);
    assert r.grid == w.grid;
  }

  /** Clicking an occupied cell again with any building selected changes
      nothing, so a second placement on the same cell is refused. */
  lemma PlaceTwiceRefused(w: World, x: int, y: int, selected: string, keys: set<string>)
    requires Places(w, x, y, selected)
    ensures var r1 := Click(w, x, y, selected, keys);
      forall s :: s != DeleteTool ==> Click(r1, x, y, s, keys) == r1
  {
  }

  /** A belt can be placed while belts are still locked: the click handler
      looks only at bounds, the catalog, money and the cell. */
  lemma LockedBeltStillPlaced(w: World, x: int, y: int, keys: set<string>)
    requires !w.unlocks.belts && InBounds(x, y) && (x, y) !in w.grid && w.pool.money >= 15
    ensures Click(w, x, y, "belt", keys).grid[(x, y)].kind == Belt
  {
  }
}
