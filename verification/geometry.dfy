/** The 50 x 50 map of the game: real positions, the integer cells that
    radius checks are made on, and the fixed landmarks (cities and base). */
module Geometry {

  const MapWidth: int := 50
  const MapHeight: int := 50
  const MapXMid: int := MapWidth / 2
  const MapYMid: int := MapHeight / 2

  /** A position on the map. Row 0 is the top of the display, so "north"
      is the direction of decreasing y. */
  datatype Pos = Pos(x: real, y: real)

  /** A position truncated to whole numbers, as every distance check sees it. */
  datatype Cell = Cell(x: int, y: int)

  /** A static marker: a city, or the wreck of anything destroyed. */
  datatype City = City(pos: Pos)
  datatype Wreck = Wreck(pos: Pos)

  const BaseCell: Cell := Cell(MapXMid, MapYMid)

  const CityCells: seq<Cell> := [
    Cell(MapXMid - 5, MapYMid - 5), Cell(MapXMid + 10, MapYMid - 12),
    Cell(MapXMid - 2, MapYMid - 7), Cell(MapXMid + 3, MapYMid + 4)
  ]

  predicate InMap(p: Pos) {
    && 0.0 <= p.x <= (MapWidth - 1) as real
    && 0.0 <= p.y <= (MapHeight - 1) as real
  }

  predicate CellInMap(c: Cell) {
    0 <= c.x <= MapWidth - 1 && 0 <= c.y <= MapHeight - 1
  }

  /** `max(0, min(v, hi))`: one coordinate pulled back onto the map. */
  function ClampCoord(v: real, hi: real): (r: real)
    requires 0.0 <= hi
    ensures 0.0 <= r <= hi
    ensures 0.0 <= v <= hi ==> r == v
    ensures v < 0.0 ==> r == 0.0
    ensures hi < v ==> r == hi
  {
    if v < hi then (if v < 0.0 then 0.0 else v) else hi
  }

  /** The position on the map nearest to p, axis by axis: a coordinate
      in range is kept, one below 0 becomes 0 and one past the far edge
      becomes the far edge. */
  function ClampToMap(p: Pos): (r: Pos)
    ensures InMap(r)
    ensures InMap(p) ==> r == p
    ensures 0.0 <= p.x <= (MapWidth - 1) as real ==> r.x == p.x
    ensures p.x < 0.0 ==> r.x == 0.0
    ensures (MapWidth - 1) as real < p.x ==> r.x == (MapWidth - 1) as real
    ensures 0.0 <= p.y <= (MapHeight - 1) as real ==> r.y == p.y
    ensures p.y < 0.0 ==> r.y == 0.0
    ensures (MapHeight - 1) as real < p.y ==> r.y == (MapHeight - 1) as real
  {
    Pos(ClampCoord(p.x, (MapWidth - 1) as real), ClampCoord(p.y, (MapHeight - 1) as real))
  }

  /** Python's `int()` on a float: rounds toward zero. */
  function Trunc(v: real): (r: int)
    ensures 0.0 <= v ==> 0 <= r && r as real <= v < r as real + 1.0
    ensures v < 0.0 ==> r <= 0 && r as real - 1.0 < v <= r as real
  {
    if v >= 0.0 then v.Floor else -((-v).Floor)
  }

  /** `get_pos`: the cell a position lies in. */
  function CellOf(p: Pos): (c: Cell)
    ensures InMap(p) ==> CellInMap(c)
  {
    Cell(Trunc(p.x), Trunc(p.y))
  }

  function PosOf(c: Cell): (p: Pos)
    ensures CellOf(p) == c
  {
    Pos(c.x as real, c.y as real)
  }

  function SquaredDistance(a: Cell, b: Cell): nat {
    (a.x - b.x) * (a.x - b.x) + (a.y - b.y) * (a.y - b.y)
  }

  /** `distance(a, b) <= radius` for whole cells and a whole radius: the
      square root is monotone, so the check is the same on squares. */
  predicate WithinRadius(a: Cell, b: Cell, radius: nat) {
    SquaredDistance(a, b) <= radius * radius
  }
}
