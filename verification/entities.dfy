/** Aircraft: one kinematic record for fighters and bombers, told apart by
    their role, and the per-turn update they share (`Plane.update`). */
module Entities {
  import opened Geometry
  import opened Heading

  const FighterCount: nat := 4
  const FighterMaxFuel: int := 14
  const FighterMaxTurn: nat := 90
  const FighterMaxSpeed: int := 2
  const BomberMaxFuel: int := 45
  const BomberMaxTurn: nat := 30
  const BomberMaxSpeed: int := 1
  /** A fighter refuels within this distance of the base. */
  const RefuelRadius: nat := 1

  /** A bomber remembers the cell it was aimed at when it spawned. */
  datatype Role = Fighter | Bomber(target: Cell)

  datatype Plane = Plane(role: Role, pos: Pos, heading: real, desired: real, fuel: int)

  /** The floating-point trigonometry the game calls, supplied from outside:
      `unitVector(h)` is (cos h, sin h) for h in degrees, and
      `bearing(dy, dx)` is atan2(dy, dx) in degrees. */
  datatype Trig = Trig(unitVector: real -> (real, real), bearing: (real, real) -> real)

  function MaxTurn(role: Role): nat {
    if role.Fighter? then FighterMaxTurn else BomberMaxTurn
  }

  function MaxSpeed(role: Role): real {
    if role.Fighter? then FighterMaxSpeed as real else BomberMaxSpeed as real
  }

  /** Where a plane flying on `heading` would be after one turn, before the
      map clamp; y decreases going north because row 0 is drawn first. */
  function Displaced(p: Plane, heading: real, trig: Trig): Pos {
    var (c, s) := trig.unitVector(heading);
    Pos(p.pos.x + MaxSpeed(p.role) * c, p.pos.y - MaxSpeed(p.role) * s)
  }

  /** `Plane.update`: nothing happens without fuel; otherwise turn, move,
      clamp to the map and burn one unit of fuel. */
  function Advance(p: Plane, trig: Trig): (r: Plane)
    ensures p.fuel <= 0 ==> r == p
    ensures p.fuel > 0 ==> r.fuel == p.fuel - 1
    ensures p.fuel > 0 ==> InMap(r.pos)
    ensures p.fuel > 0 ==> r.role == p.role && r.desired == p.desired
    ensures p.fuel > 0 ==> r.heading == TurnToward(p.heading, p.desired, MaxTurn(p.role))
    ensures p.fuel > 0 ==> r.pos == ClampToMap(Displaced(p, r.heading, trig))
    ensures p.fuel > 0 && InMap(Displaced(p, r.heading, trig)) ==> r.pos == Displaced(p, r.heading, trig)
    ensures p.fuel > 0 && Congruent(p.heading, p.desired) ==> Congruent(r.heading, r.desired)
  {
    if p.fuel <= 0 then p
    else
      var h := TurnToward(p.heading, p.desired, MaxTurn(p.role));
      CongruentSymmetric(p.desired, Mod360(p.desired));
      p.(heading := h, pos := ClampToMap(Displaced(p, h, trig)), fuel := p.fuel - 1)
  }

  /** `change_heading`: store the ordered heading modulo 360. */
  function ChangeHeading(p: Plane, newHeading: int): (r: Plane)
    ensures 0.0 <= r.desired < 360.0 && Whole(r.desired)
    ensures Congruent(r.desired, newHeading as real)
    ensures r == p.(desired := r.desired)
  {
    var d := newHeading % 360;
    FloorOfWhole(d);
    FloorOfWhole(-(newHeading / 360));
    assert ((d as real) - (newHeading as real)) / 360.0 == (-(newHeading / 360)) as real;
    p.(desired := d as real)
  }

  predicate NearBase(p: Pos) {
    WithinRadius(CellOf(p), BaseCell, RefuelRadius)
  }

  /** `refuel` fires for a fighter that has moved: its cell is within 1 of
      the base and it is short of fuel. */
  predicate Refuels(a: Plane) {
    NearBase(a.pos) && a.fuel < FighterMaxFuel
  }

  /** What the game keeps true of every fighter on the roster. */
  predicate FighterOk(f: Plane) {
    && f.role == Fighter
    && 0 < f.fuel <= FighterMaxFuel
    && InMap(f.pos)
    && 0.0 <= f.heading < 360.0 && Whole(f.heading)
    && 0.0 <= f.desired < 360.0 && Whole(f.desired)
  }

  /** What the game keeps true of every bomber on the roster: it flies the
      bearing it was given at spawn, though that bearing is not reduced
      into [0, 360) until the bomber first moves. */
  predicate BomberOk(b: Plane) {
    && b.role.Bomber?
    && 0 < b.fuel <= BomberMaxFuel
    && InMap(b.pos)
    && Congruent(b.heading, b.desired)
  }

  predicate AllFightersOk(fs: seq<Plane>) {
    forall i :: 0 <= i < |fs| ==> FighterOk(fs[i])
  }

  predicate AllBombersOk(bs: seq<Plane>) {
    forall i :: 0 <= i < |bs| ==> BomberOk(bs[i])
  }

  /** A fighter's part of the turn: `Plane.update`, then `refuel` when its
      cell is within 1 of the base and it is short of fuel. The refuel
      comes before the crash check, so a fighter that lands dry survives. */
  function FighterTurn(f: Plane, trig: Trig): (r: Plane)
    ensures r == Advance(f, trig).(fuel := r.fuel)
    ensures FighterOk(f) ==> (NearBase(r.pos) <==> r.fuel == FighterMaxFuel)
    ensures FighterOk(f) && !NearBase(r.pos) ==> r.fuel == f.fuel - 1
    ensures FighterOk(f) && r.fuel > 0 ==> FighterOk(r)
  {
    var a := Advance(f, trig);
    if Refuels(a) then a.(fuel := FighterMaxFuel) else a
  }
}
