/** `GameController.run` and `end_game`: the starting position, the loop
    guard, and the choice of ending. */
module GameLoop {
  import opened Seqs
  import opened Geometry
  import opened Heading
  import opened Entities
  import opened Turn
  import opened Orders

  /** The game lasts while `turns` has not passed this. */
  const TurnLimit: int := 51

  datatype Outcome = CitiesLost | FightersLost | Victory

  /** The guard of the `run` loop. */
  predicate Continues(g: Game) {
    |g.cities| > 0 && |g.fighters| > 0 && g.turns <= TurnLimit
  }

  /** `end_game`: losing every city is reported first, then losing every
      fighter; otherwise the player has won. */
  function Verdict(g: Game): (o: Outcome)
    ensures o == CitiesLost <==> |g.cities| == 0
    ensures o == FightersLost <==> |g.cities| > 0 && |g.fighters| == 0
    ensures o == Victory <==> |g.cities| > 0 && |g.fighters| > 0
  {
    if |g.cities| <= 0 then CitiesLost
    else if |g.fighters| <= 0 then FightersLost
    else Victory
  }

  /** A finished game was won exactly when the turn limit was passed with
      a city and a fighter left. */
  lemma VictoryMeansTimeRanOut(g: Game)
    requires !Continues(g)
    ensures Verdict(g) == Victory <==> |g.cities| > 0 && |g.fighters| > 0 && g.turns > TurnLimit
  {
  }

  /** `GameController.__init__`: four cities, four fighters in a diagonal
      line from the base with full tanks, no bombers, no wrecks. */
  function Initial(): (g: Game)
    ensures Valid(g) && Continues(g)
    ensures g.turns == 0 && |g.fighters| == FighterCount && |g.cities| == |CityCells|
    ensures g.bombers == [] && g.wrecks == []
  {
    FloorOfWhole(0);
    var fighters := seq(FighterCount, i requires 0 <= i < FighterCount =>
      Plane(Fighter, PosOf(Cell(MapXMid + 2 * i, MapYMid + 2 * i)), 0.0, 0.0, FighterMaxFuel));
    var cities := seq(|CityCells|, i requires 0 <= i < |CityCells| => City(PosOf(CityCells[i])));
    Game(0, fighters, [], cities, [], [])
  }

  /** The game the `run` loop plays from `g`: while the guard holds, one
      update, then the k-th line of orders applied to the fighters that
      are left (no orders once the lines run out). */
  function Play(g: Game, trig: Trig, rng: Rng, orders: seq<seq<string>>, k: nat): (r: Game)
    requires RngInRange(rng)
    ensures !Continues(r)
    ensures !Continues(g) ==> r == g
    ensures r.turns >= g.turns && (Continues(g) ==> r.turns > g.turns)
    ensures g.turns <= TurnLimit + 1 ==> r.turns <= TurnLimit + 1
    ensures Valid(g) ==> Valid(r)
    decreases TurnLimit + 1 - g.turns
  {
    if !Continues(g) then g
    else
      var next := Step(g, trig, rng);
      var tokens := if k < |orders| then orders[k] else [];
      OrdersKeepFightersOk(next.fighters, tokens);
      Play(next.(fighters := Ordered(next.fighters, tokens)), trig, rng, orders, k + 1)
  }

  /** The `run` loop: update, then read the player's orders for that turn
      (`orders[k]` after the k-th update; no orders once they run out),
      for as long as the guard holds; then pick the ending. */
  method Run(start: Game, trig: Trig, rng: Rng, orders: seq<seq<string>>) returns (g: Game, outcome: Outcome)
    requires Valid(start) && RngInRange(rng)
    ensures Valid(g) && !Continues(g)
    ensures outcome == Verdict(g)
    ensures start.turns <= TurnLimit + 1 ==> g.turns <= TurnLimit + 1
    ensures Continues(start) ==> g.turns > start.turns
    ensures outcome == Victory ==> g.turns > TurnLimit
    ensures g == Play(start, trig, rng, orders, 0)
  {
    g := start;
    var k: nat := 0;
    while Continues(g)
      invariant Play(g, trig, rng, orders, k) == Play(start, trig, rng, orders, 0)
      decreases TurnLimit + 1 - g.turns
    {
      var next := Step(g, trig, rng);
      var tokens := if k < |orders| then orders[k] else [];
      var fighters, _, _ := ApplyOrders(next.fighters, tokens);
      assert fighters == Ordered(next.fighters, tokens);
      g := next.(fighters := fighters);
      k := k + 1;
    }
    outcome := Verdict(g);
  }
}
