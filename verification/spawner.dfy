/** `spawn_bomber`: a new bomber on a random map edge, aimed at a random
    living city. The random draws are supplied as a `Draw`. */
module Spawner {
  import opened Geometry
  import opened Heading
  import opened Entities

  /** The three `randint` results: the side (0 north, 1 west, 2 south,
      3 east), the point along that side, and the index of the target city. */
  datatype Draw = Draw(side: int, offset: int, city: int)

  predicate EdgeDraw(side: int, offset: int) {
    && 0 <= side <= 3
    && 0 <= offset < (if side % 2 == 0 then MapWidth else MapHeight)
  }

  predicate DrawInRange(d: Draw, cityCount: nat) {
    EdgeDraw(d.side, d.offset) && 0 <= d.city < cityCount
  }

  /** A cell on the border of the map. */
  predicate OnEdge(c: Cell) {
    && CellInMap(c)
    && (c.x == 0 || c.x == MapWidth - 1 || c.y == 0 || c.y == MapHeight - 1)
  }

  function SpawnCell(side: int, offset: int): Cell {
    if side == 0 then Cell(offset, 0)
    else if side == 1 then Cell(0, offset)
    else if side == 2 then Cell(offset, MapHeight - 1)
    else Cell(MapWidth - 1, offset)
  }

  /** The spawn draws reach exactly the border cells: every draw lands on
      the border, and every border cell can be drawn. */
  lemma SpawnCellsAreEdgeCells(c: Cell)
    ensures OnEdge(c) <==> exists side, offset :: EdgeDraw(side, offset) && SpawnCell(side, offset) == c
  {
    if OnEdge(c) {
      if c.y == 0 {
        assert SpawnCell(0, c.x) == c;
      } else if c.x == 0 {
        assert SpawnCell(1, c.y) == c;
      } else if c.y == MapHeight - 1 {
        assert SpawnCell(2, c.x) == c;
      } else {
        assert SpawnCell(3, c.y) == c;
      }
    }
  }

  /** The bomber's constructor: aimed at the target's cell and snapped to
      that bearing at once, with full fuel. */
  function SpawnBomber(cities: seq<City>, d: Draw, trig: Trig): (b: Plane)
    requires DrawInRange(d, |cities|)
    ensures b.pos == PosOf(SpawnCell(d.side, d.offset))
    ensures CellOf(b.pos) == SpawnCell(d.side, d.offset) && OnEdge(CellOf(b.pos))
    ensures b.role == Bomber(CellOf(cities[d.city].pos))
    ensures var t := b.role.target;
            b.heading == b.desired == trig.bearing(b.pos.y - t.y as real, t.x as real - b.pos.x)
    ensures b.fuel == BomberMaxFuel
    ensures BomberOk(b)
  {
    var at := SpawnCell(d.side, d.offset);
    var target := CellOf(cities[d.city].pos);
    var deltaX := target.x as real - at.x as real;
    var deltaY := target.y as real - at.y as real;
    var bearing := trig.bearing(-deltaY, deltaX);
    FloorOfWhole(0);
    Plane(Bomber(target), PosOf(at), bearing, bearing, BomberMaxFuel)
  }
}
