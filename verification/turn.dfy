/** `GameController.update`: one turn of the game. Fighters move, refuel
    and crash; bombers move, crash, are intercepted or bomb a city; every
    third turn a bomber spawns; the turn's events make up the headline. */
module Turn {
  import opened Seqs
  import opened Geometry
  import opened Heading
  import opened Entities
  import opened Spawner

  const InterceptRadius: nat := 3
  const BombRadius: nat := 1
  /** `BOMBER_TIMER`: a bomber spawns on every turn divisible by this. */
  const SpawnPeriod: nat := 3

  /** One clause of the headline. Fighters and bombers are numbered by
      their place in the roster at the start of the turn, the intercepting
      fighter by its place among this turn's surviving fighters, and a
      city by its place in the city list when it is hit. */
  datatype Event =
    | Refueled(fighter: nat)
    | FighterCrashed(fighter: nat)
    | FighterAt(fighter: nat)
    | BomberCrashed(bomber: nat)
    | Intercepted(bomber: nat, interceptor: nat)
    | CityBombed(city: nat)
    | BomberAt(bomber: nat)
    | BomberSighted
    | AwaitingOrders

  datatype Game = Game(
    turns: int,
    fighters: seq<Plane>,
    bombers: seq<Plane>,
    cities: seq<City>,
    wrecks: seq<Wreck>,
    headline: seq<Event>)

  /** The random source: the draws for the spawn on a given turn, given
      how many cities are left to aim at. */
  type Rng = (int, nat) -> Draw

  ghost predicate RngInRange(rng: Rng) {
    forall turn: int, cityCount: nat :: 0 < cityCount ==> DrawInRange(rng(turn, cityCount), cityCount)
  }

  /** What the game keeps true between turns. */
  predicate Valid(g: Game) {
    g.turns >= 0 && AllFightersOk(g.fighters) && AllBombersOk(g.bombers)
  }

  /** A downed aircraft leaves its wreck on the cell it was in. */
  function PlaneWreck(p: Plane): Wreck {
    Wreck(PosOf(CellOf(p.pos)))
  }

  // ---------------------------------------------------------------------
  // Cities are only ever removed

  lemma {:induction false} SubseqRefl(s: seq<City>)
    ensures Subseq(s, s)
    decreases |s|
  {
    if |s| > 0 {
      SubseqRefl(s[1..]);
    }
  }

  lemma {:induction false} SubseqTrans(a: seq<City>, b: seq<City>, c: seq<City>)
    requires Subseq(a, b) && Subseq(b, c)
    ensures Subseq(a, c)
    decreases |c|
  {
    if |a| > 0 {
      if Subseq(b, c[1..]) {
        SubseqTrans(a, b, c[1..]);
      } else if a[0] == b[0] && Subseq(a[1..], b[1..]) {
        SubseqTrans(a[1..], b[1..], c[1..]);
      } else {
        SubseqTrans(a, b[1..], c[1..]);
      }
    }
  }

  /** Removing a bombed city leaves the others as a subsequence. */
  lemma {:induction false} RemoveAtSubseq(s: seq<City>, i: nat)
    requires i < |s|
    ensures Subseq(RemoveAt(s, i), s)
    decreases i
  {
    var r := RemoveAt(s, i);
    if i == 0 {
      assert r == s[1..];
      SubseqRefl(s[1..]);
    } else {
      RemoveAtSubseq(s[1..], i - 1);
      assert r[1..] == RemoveAt(s[1..], i - 1);
    }
  }

  // ---------------------------------------------------------------------
  // Fighter phase

  datatype FighterReport = FighterReport(survivors: seq<Plane>, wrecks: seq<Wreck>, events: seq<Event>)

  /** The fighter loop: each fighter takes its turn; those left without
      fuel crash and leave a wreck, the others go into a fresh roster. */
  function FighterPhase(fs: seq<Plane>, trig: Trig, first: nat): (r: FighterReport)
    ensures |r.survivors| + |r.wrecks| == |fs|
    ensures forall i :: 0 <= i < |r.survivors| ==> r.survivors[i].fuel > 0
    ensures AllFightersOk(fs) ==> AllFightersOk(r.survivors)
    ensures BomberSighted !in r.events
    decreases |fs|
  {
    if |fs| == 0 then FighterReport([], [], [])
    else
      var a := Advance(fs[0], trig);
      var f := FighterTurn(fs[0], trig);
      var refuel := if Refuels(a) then [Refueled(first)] else [];
      var rest := FighterPhase(fs[1..], trig, first + 1);
      if f.fuel <= 0 then
        FighterReport(rest.survivors, [PlaneWreck(f)] + rest.wrecks, refuel + [FighterCrashed(first)] + rest.events)
      else
        assert AllFightersOk(fs) ==> FighterOk(fs[0]) && AllFightersOk(fs[1..]);
        FighterReport([f] + rest.survivors, rest.wrecks, refuel + [FighterAt(first)] + rest.events)
  }

  /** Every fighter after its own turn, in roster order. */
  function TurnAll(fs: seq<Plane>, trig: Trig): (r: seq<Plane>)
    ensures |r| == |fs|
    ensures forall i :: 0 <= i < |fs| ==> r[i] == FighterTurn(fs[i], trig)
  {
    seq(|fs|, i requires 0 <= i < |fs| => FighterTurn(fs[i], trig))
  }

  /** The planes that still have fuel, in order. */
  function Airborne(ps: seq<Plane>): (r: seq<Plane>)
    ensures |r| <= |ps|
    ensures forall p :: p in r ==> p in ps && p.fuel > 0
    ensures forall p :: p in ps && p.fuel > 0 ==> p in r
  {
    if |ps| == 0 then []
    else if ps[0].fuel > 0 then [ps[0]] + Airborne(ps[1..])
    else Airborne(ps[1..])
  }

  /** The wrecks of the planes that have run dry, in order. */
  function Downed(ps: seq<Plane>): (r: seq<Wreck>)
    ensures |r| + |Airborne(ps)| == |ps|
  {
    if |ps| == 0 then []
    else if ps[0].fuel > 0 then Downed(ps[1..])
    else [PlaneWreck(ps[0])] + Downed(ps[1..])
  }

  /** The fighter loop is a filter: the new roster is exactly the fighters
      that still have fuel after moving and refuelling, in their original
      order, and the wrecks are exactly those of the others, in order. */
  lemma {:induction false} FighterPhaseIsFilter(fs: seq<Plane>, trig: Trig, first: nat)
    ensures FighterPhase(fs, trig, first).survivors == Airborne(TurnAll(fs, trig))
    ensures FighterPhase(fs, trig, first).wrecks == Downed(TurnAll(fs, trig))
    decreases |fs|
  {
    if |fs| > 0 {
      FighterPhaseIsFilter(fs[1..], trig, first + 1);
      assert TurnAll(fs, trig)[1..] == TurnAll(fs[1..], trig);
    }
  }

  // ---------------------------------------------------------------------
  // Bomber phase

  predicate Intercepts(f: Plane, b: Plane) {
    WithinRadius(CellOf(f.pos), CellOf(b.pos), InterceptRadius)
  }

  predicate Bombs(b: Plane, c: City) {
    WithinRadius(CellOf(b.pos), CellOf(c.pos), BombRadius)
  }

  /** How a bomber's turn ends, once it has moved. */
  datatype Fate = Crashed | ShotDown(interceptor: nat) | Bombed(city: nat) | Flying

  /** Out of fuel first; else the first fighter in roster order within
      range shoots it down; else the first city in list order within range
      is bombed; else it flies on. */
  function FateOf(b: Plane, fighters: seq<Plane>, cities: seq<City>): (fate: Fate)
    ensures fate.Crashed? <==> b.fuel <= 0
    ensures fate.ShotDown? ==> && b.fuel > 0
                               && fate.interceptor < |fighters| && Intercepts(fighters[fate.interceptor], b)
                               && forall j :: 0 <= j < fate.interceptor ==> !Intercepts(fighters[j], b)
    ensures fate.Bombed? ==> && b.fuel > 0
                             && (forall j :: 0 <= j < |fighters| ==> !Intercepts(fighters[j], b))
                             && fate.city < |cities| && Bombs(b, cities[fate.city])
                             && forall j :: 0 <= j < fate.city ==> !Bombs(b, cities[j])
    ensures fate.Flying? ==> && b.fuel > 0
                             && (forall j :: 0 <= j < |fighters| ==> !Intercepts(fighters[j], b))
                             && (forall j :: 0 <= j < |cities| ==> !Bombs(b, cities[j]))
  {
    if b.fuel <= 0 then Crashed
    else match FirstIndex(fighters, f => Intercepts(f, b))
      case Some(k) => ShotDown(k)
      case None =>
        match FirstIndex(cities, c => Bombs(b, c))
        case Some(k) => Bombed(k)
        case None => Flying
  }

  datatype BomberReport = BomberReport(survivors: seq<Plane>, cities: seq<City>, wrecks: seq<Wreck>, events: seq<Event>)

  /** A bomber that no fighter can intercept and that can bomb no city. */
  predicate OutOfRange(b: Plane, fighters: seq<Plane>, cities: seq<City>) {
    && (forall j :: 0 <= j < |fighters| ==> !Intercepts(fighters[j], b))
    && (forall j :: 0 <= j < |cities| ==> !Bombs(b, cities[j]))
  }

  /** Losing cities cannot bring a bomber into range of one. */
  lemma OutOfRangeOfFewer(bs: seq<Plane>, fighters: seq<Plane>, cities: seq<City>, fewer: seq<City>)
    requires forall i :: 0 <= i < |bs| ==> OutOfRange(bs[i], fighters, cities)
    requires multiset(fewer) <= multiset(cities)
    ensures forall i :: 0 <= i < |bs| ==> OutOfRange(bs[i], fighters, fewer)
  {
    forall i, j | 0 <= i < |bs| && 0 <= j < |fewer|
      ensures !Bombs(bs[i], fewer[j])
    {
      assert fewer[j] in multiset(cities);
      var k :| 0 <= k < |cities| && cities[k] == fewer[j];
    }
  }

  /** The cities left standing once a moved bomber has met its fate. */
  function AfterRaid(b: Plane, fighters: seq<Plane>, cities: seq<City>): seq<City> {
    match FateOf(b, fighters, cities)
    case Bombed(k) => RemoveAt(cities, k)
    case _ => cities
  }

  /** One bomber's turn against the fighters that survived this turn and
      the cities still standing. A bombing leaves the city's wreck only:
      the bomber is gone but leaves none of its own. */
  function BomberStep(b0: Plane, fighters: seq<Plane>, cities: seq<City>, trig: Trig, index: nat): (r: BomberReport)
    ensures var b := Advance(b0, trig);
            match FateOf(b, fighters, cities)
            case Flying => r.survivors == [b] && r.cities == cities && r.wrecks == []
            case Crashed => r.survivors == [] && r.cities == cities && r.wrecks == [PlaneWreck(b)]
            case ShotDown(_) => r.survivors == [] && r.cities == cities && r.wrecks == [PlaneWreck(b)]
            case Bombed(k) => && r.survivors == [] && k < |cities|
                              && r.cities == cities[..k] + cities[k + 1..]
                              && r.wrecks == [Wreck(cities[k].pos)]
    ensures |r.survivors| + |r.wrecks| == 1
    ensures multiset(r.cities) <= multiset(cities) && |r.cities| >= |cities| - 1
    ensures forall i :: 0 <= i < |r.survivors| ==> OutOfRange(r.survivors[i], fighters, cities)
    ensures BomberOk(b0) ==> AllBombersOk(r.survivors)
    ensures BomberSighted !in r.events
  {
    var b := Advance(b0, trig);
    match FateOf(b, fighters, cities)
    case Crashed => BomberReport([], cities, [PlaneWreck(b)], [BomberCrashed(index)])
    case ShotDown(k) => BomberReport([], cities, [PlaneWreck(b)], [Intercepted(index, k)])
    case Bombed(k) => BomberReport([], RemoveAt(cities, k), [Wreck(cities[k].pos)], [CityBombed(k)])
    case Flying => BomberReport([b], cities, [], [BomberAt(index)])
  }

  /** The bomber loop: bombers are taken in roster order, and each sees
      the cities left standing by the bombers before it. A bomber that is
      still on the roster afterwards is out of range of every fighter and
      of every city still standing. */
  function BomberPhase(bs: seq<Plane>, fighters: seq<Plane>, cities: seq<City>, trig: Trig, first: nat): (r: BomberReport)
    ensures |r.survivors| + |r.wrecks| == |bs|
    ensures multiset(r.cities) <= multiset(cities)
    ensures |cities| - |r.cities| <= |bs| - |r.survivors|
    ensures forall i :: 0 <= i < |r.survivors| ==> OutOfRange(r.survivors[i], fighters, r.cities)
    ensures AllBombersOk(bs) ==> AllBombersOk(r.survivors)
    ensures BomberSighted !in r.events
    decreases |bs|
  {
    if |bs| == 0 then BomberReport([], cities, [], [])
    else
      var s := BomberStep(bs[0], fighters, cities, trig, first);
      var rest := BomberPhase(bs[1..], fighters, s.cities, trig, first + 1);
      assert AllBombersOk(bs) ==> BomberOk(bs[0]) && AllBombersOk(bs[1..]);
      OutOfRangeOfFewer(s.survivors, fighters, cities, rest.cities);
      BomberReport(s.survivors + rest.survivors, rest.cities, s.wrecks + rest.wrecks, s.events + rest.events)
  }

  /** A bomber's turn seen from the roster: it stays, moved, exactly when
      it flies on, and the cities become those left by its raid. */
  lemma BomberStepIsRaid(b0: Plane, fighters: seq<Plane>, cities: seq<City>, trig: Trig, index: nat)
    ensures var b := Advance(b0, trig);
            var r := BomberStep(b0, fighters, cities, trig, index);
            && r.survivors == (if FateOf(b, fighters, cities).Flying? then [b] else [])
            && r.cities == AfterRaid(b, fighters, cities)
            && r.wrecks == WreckLeft(b, FateOf(b, fighters, cities), cities)
  {
  }

  /** Every bomber after its own move, in roster order. */
  function MoveAll(bs: seq<Plane>, trig: Trig): (r: seq<Plane>)
    ensures |r| == |bs|
    ensures forall i :: 0 <= i < |bs| ==> r[i] == Advance(bs[i], trig)
  {
    seq(|bs|, i requires 0 <= i < |bs| => Advance(bs[i], trig))
  }

  /** The cities left standing once the given bombers have each had their
      turn, in order. */
  function CitiesAfter(bs: seq<Plane>, fighters: seq<Plane>, cities: seq<City>, trig: Trig): seq<City>
    decreases |bs|
  {
    if |bs| == 0 then cities
    else CitiesAfter(bs[1..], fighters, AfterRaid(Advance(bs[0], trig), fighters, cities), trig)
  }

  /** Each bomber's fate, judged after its move against the fighters and
      the cities that the bombers before it left standing. */
  function Fates(bs: seq<Plane>, fighters: seq<Plane>, cities: seq<City>, trig: Trig): (r: seq<Fate>)
    ensures |r| == |bs|
  {
    seq(|bs|, i requires 0 <= i < |bs| =>
      FateOf(Advance(bs[i], trig), fighters, CitiesAfter(bs[..i], fighters, cities, trig)))
  }

  /** The cities standing when each bomber's turn came, in roster order. */
  function Standing(bs: seq<Plane>, fighters: seq<Plane>, cities: seq<City>, trig: Trig): (r: seq<seq<City>>)
    ensures |r| == |bs|
  {
    seq(|bs|, i requires 0 <= i < |bs| => CitiesAfter(bs[..i], fighters, cities, trig))
  }

  /** What a moved bomber leaves behind: its own wreck on its cell when it
      crashed or was shot down, the wreck of the city it bombed (a position
      in the cities it saw), nothing when it flies on. */
  function WreckLeft(b: Plane, fate: Fate, seen: seq<City>): seq<Wreck> {
    match fate
    case Crashed => [PlaneWreck(b)]
    case ShotDown(_) => [PlaneWreck(b)]
    case Bombed(k) => if k < |seen| then [Wreck(seen[k].pos)] else []
    case Flying => []
  }

  /** The wrecks the planes leave, in order. */
  function Leftovers(ps: seq<Plane>, fates: seq<Fate>, seen: seq<seq<City>>): seq<Wreck>
    requires |ps| == |fates| == |seen|
  {
    if |ps| == 0 then []
    else WreckLeft(ps[0], fates[0], seen[0]) + Leftovers(ps[1..], fates[1..], seen[1..])
  }

  /** The wrecks of the bomber loop, bomber by bomber: each moved bomber's
      leftovers under its fate, judged against the cities it saw. */
  function RaidWrecks(bs: seq<Plane>, fighters: seq<Plane>, cities: seq<City>, trig: Trig): seq<Wreck> {
    Leftovers(MoveAll(bs, trig), Fates(bs, fighters, cities, trig), Standing(bs, fighters, cities, trig))
  }

  /** The planes whose fate is to fly on, in order. */
  function KeepFlying(ps: seq<Plane>, fates: seq<Fate>): seq<Plane>
    requires |ps| == |fates|
  {
    if |ps| == 0 then []
    else (if fates[0].Flying? then [ps[0]] else []) + KeepFlying(ps[1..], fates[1..])
  }

  /** A raid deletes at most one city and keeps the others in order. */
  lemma AfterRaidKeepsOrder(b: Plane, fighters: seq<Plane>, cities: seq<City>)
    ensures Subseq(AfterRaid(b, fighters, cities), cities)
  {
    match FateOf(b, fighters, cities)
    case Bombed(k) => RemoveAtSubseq(cities, k);
    case _ => SubseqRefl(cities);
  }

  /** However many raids there are, the cities left are the old list with
      some cities deleted; the others keep their order. */
  lemma {:induction false} CitiesAfterKeepsOrder(bs: seq<Plane>, fighters: seq<Plane>, cities: seq<City>, trig: Trig)
    ensures Subseq(CitiesAfter(bs, fighters, cities, trig), cities)
    decreases |bs|
  {
    if |bs| == 0 {
      SubseqRefl(cities);
    } else {
      var left := AfterRaid(Advance(bs[0], trig), fighters, cities);
      AfterRaidKeepsOrder(Advance(bs[0], trig), fighters, cities);
      CitiesAfterKeepsOrder(bs[1..], fighters, left, trig);
      SubseqTrans(CitiesAfter(bs[1..], fighters, left, trig), left, cities);
    }
  }

  /** The first bomber's fate is judged against all the cities; the rest
      are judged as if the loop started after its raid. */
  lemma {:induction false} FatesTail(bs: seq<Plane>, fighters: seq<Plane>, cities: seq<City>, trig: Trig)
    requires |bs| > 0
    ensures var b := Advance(bs[0], trig);
            && Fates(bs, fighters, cities, trig)[0] == FateOf(b, fighters, cities)
            && Fates(bs, fighters, cities, trig)[1..]
               == Fates(bs[1..], fighters, AfterRaid(b, fighters, cities), trig)
  {
    var left := AfterRaid(Advance(bs[0], trig), fighters, cities);
    assert bs[..0] == [];
    forall i | 0 <= i < |bs| - 1
      ensures CitiesAfter(bs[..i + 1], fighters, cities, trig) == CitiesAfter(bs[1..][..i], fighters, left, trig)
    {
      assert bs[..i + 1][1..] == bs[1..][..i];
    }
  }

  /** The first bomber sees all the cities; the rest see what they would
      if the loop started after its raid. */
  lemma {:induction false} StandingTail(bs: seq<Plane>, fighters: seq<Plane>, cities: seq<City>, trig: Trig)
    requires |bs| > 0
    ensures var left := AfterRaid(Advance(bs[0], trig), fighters, cities);
            && Standing(bs, fighters, cities, trig)[0] == cities
            && Standing(bs, fighters, cities, trig)[1..] == Standing(bs[1..], fighters, left, trig)
  {
    var left := AfterRaid(Advance(bs[0], trig), fighters, cities);
    assert bs[..0] == [];
    forall i | 0 <= i < |bs| - 1
      ensures Standing(bs, fighters, cities, trig)[i + 1] == Standing(bs[1..], fighters, left, trig)[i]
    {
      assert bs[..i + 1][1..] == bs[1..][..i];
    }
  }

  /** The cities the bomber loop leaves are those left after every
      bomber's turn. */
  lemma {:induction false} BomberPhaseCities(bs: seq<Plane>, fighters: seq<Plane>, cities: seq<City>, trig: Trig, first: nat)
    ensures BomberPhase(bs, fighters, cities, trig, first).cities == CitiesAfter(bs, fighters, cities, trig)
    decreases |bs|
  {
    if |bs| > 0 {
      var b := Advance(bs[0], trig);
      BomberStepIsRaid(bs[0], fighters, cities, trig, first);
      BomberPhaseCities(bs[1..], fighters, AfterRaid(b, fighters, cities), trig, first + 1);
    }
  }

  /** The cities the bomber loop leaves are the old list with some cities
      deleted; the others keep their order. */
  lemma BomberPhaseKeepsOrder(bs: seq<Plane>, fighters: seq<Plane>, cities: seq<City>, trig: Trig, first: nat)
    ensures Subseq(BomberPhase(bs, fighters, cities, trig, first).cities, cities)
  {
    BomberPhaseCities(bs, fighters, cities, trig, first);
    CitiesAfterKeepsOrder(bs, fighters, cities, trig);
  }

  /** The bomber loop is a filter: the roster it leaves is exactly the
      moved bombers whose fate was to fly on, in roster order, each judged
      against the cities the earlier bombers left. */
  lemma {:induction false} BomberPhaseIsFilter(bs: seq<Plane>, fighters: seq<Plane>, cities: seq<City>, trig: Trig, first: nat)
    ensures BomberPhase(bs, fighters, cities, trig, first).survivors
            == KeepFlying(MoveAll(bs, trig), Fates(bs, fighters, cities, trig))
    decreases |bs|
  {
    if |bs| > 0 {
      var b := Advance(bs[0], trig);
      var left := AfterRaid(b, fighters, cities);
      BomberStepIsRaid(bs[0], fighters, cities, trig, first);
      BomberPhaseIsFilter(bs[1..], fighters, left, trig, first + 1);
      FatesTail(bs, fighters, cities, trig);
      assert MoveAll(bs, trig)[1..] == MoveAll(bs[1..], trig);
    }
  }

  /** The wrecks of the bomber loop are exactly the leftovers of each
      moved bomber's fate, in roster order: a downed bomber's on its own
      cell, a bombed city's at that city. */
  lemma {:induction false} BomberPhaseWrecks(bs: seq<Plane>, fighters: seq<Plane>, cities: seq<City>, trig: Trig, first: nat)
    ensures BomberPhase(bs, fighters, cities, trig, first).wrecks == RaidWrecks(bs, fighters, cities, trig)
    decreases |bs|
  {
    if |bs| > 0 {
      var b := Advance(bs[0], trig);
      var left := AfterRaid(b, fighters, cities);
      BomberStepIsRaid(bs[0], fighters, cities, trig, first);
      BomberPhaseWrecks(bs[1..], fighters, left, trig, first + 1);
      FatesTail(bs, fighters, cities, trig);
      StandingTail(bs, fighters, cities, trig);
      var ps, fates, seen := MoveAll(bs, trig), Fates(bs, fighters, cities, trig), Standing(bs, fighters, cities, trig);
      assert ps[1..] == MoveAll(bs[1..], trig);
      assert RaidWrecks(bs, fighters, cities, trig)
             == WreckLeft(b, fates[0], seen[0]) + Leftovers(ps[1..], fates[1..], seen[1..]);
    }
  }

  // ---------------------------------------------------------------------
  // The whole turn

  predicate Spawns(turns: int, cityCount: nat) {
    turns % SpawnPeriod == 0 && cityCount > 0
  }

  /** The spawn check at the end of the turn: on every `SpawnPeriod`-th
      turn, while a city stands, one new bomber joins the end of the roster. */
  function SpawnPhase(turns: int, bombers: seq<Plane>, cities: seq<City>, trig: Trig, rng: Rng): (r: seq<Plane>)
    requires RngInRange(rng)
    ensures Spawns(turns, |cities|) ==> |r| == |bombers| + 1 && r[..|bombers|] == bombers
    ensures !Spawns(turns, |cities|) ==> r == bombers
    ensures Spawns(turns, |cities|) ==>
              && OnEdge(CellOf(Last(r).pos))
              && exists i :: 0 <= i < |cities| && Last(r).role == Bomber(CellOf(cities[i].pos))
    ensures Spawns(turns, |cities|) ==> Last(r) == SpawnBomber(cities, rng(turns, |cities|), trig)
    ensures AllBombersOk(bombers) ==> AllBombersOk(r)
  {
    if Spawns(turns, |cities|) then
      var d := rng(turns, |cities|);
      var b := SpawnBomber(cities, d, trig);
      assert Last(bombers + [b]) == b;
      assert (bombers + [b])[..|bombers|] == bombers;
      bombers + [b]
    else bombers
  }

  /** The headline, or the placeholder when nothing was reported. */
  function Headline(events: seq<Event>): (r: seq<Event>)
    ensures |r| > 0
    ensures |events| > 0 ==> r == events
    ensures forall e :: e in r && e != AwaitingOrders ==> e in events
  {
    if |events| == 0 then [AwaitingOrders] else events
  }

  /** The fighter and bomber loops of `update`, before the spawn check:
      the turn counter has moved on and `headline` holds the events so far.
      The bomber loop runs against the fighters already filtered this turn. */
  function Resolve(g: Game, trig: Trig): (m: Game)
    ensures m.turns == g.turns + 1
    ensures m.fighters == Airborne(TurnAll(g.fighters, trig))
    ensures m.bombers == KeepFlying(MoveAll(g.bombers, trig), Fates(g.bombers, m.fighters, g.cities, trig))
    ensures m.cities == CitiesAfter(g.bombers, m.fighters, g.cities, trig)
    ensures forall i :: 0 <= i < |m.bombers| ==> OutOfRange(m.bombers[i], m.fighters, m.cities)
    ensures multiset(m.cities) <= multiset(g.cities)
    ensures |g.cities| - |m.cities| <= |g.bombers| - |m.bombers|
    ensures m.wrecks == g.wrecks + Downed(TurnAll(g.fighters, trig)) + RaidWrecks(g.bombers, m.fighters, g.cities, trig)
    ensures |m.wrecks| - |g.wrecks| == (|g.fighters| - |m.fighters|) + (|g.bombers| - |m.bombers|)
    ensures BomberSighted !in m.headline
    ensures Valid(g) ==> Valid(m)
  {
    var fr := FighterPhase(g.fighters, trig, 0);
    FighterPhaseIsFilter(g.fighters, trig, 0);
    var br := BomberPhase(g.bombers, fr.survivors, g.cities, trig, 0);
    BomberPhaseIsFilter(g.bombers, fr.survivors, g.cities, trig, 0);
    BomberPhaseCities(g.bombers, fr.survivors, g.cities, trig, 0);
    BomberPhaseWrecks(g.bombers, fr.survivors, g.cities, trig, 0);
    Game(g.turns + 1, fr.survivors, br.survivors, br.cities, g.wrecks + fr.wrecks + br.wrecks, fr.events + br.events)
  }

  /** The end of `update`: the spawn check, then the headline, or its
      placeholder when nothing was reported. */
  function Finish(m: Game, trig: Trig, rng: Rng): (r: Game)
    requires RngInRange(rng)
    ensures r.turns == m.turns && r.fighters == m.fighters && r.cities == m.cities && r.wrecks == m.wrecks
    ensures var kept := |r.bombers| - (if Spawns(m.turns, |m.cities|) then 1 else 0);
            kept == |m.bombers| && r.bombers[..kept] == m.bombers
    ensures Spawns(m.turns, |m.cities|) ==>
              && OnEdge(CellOf(Last(r.bombers).pos))
              && exists i :: 0 <= i < |m.cities| && Last(r.bombers).role == Bomber(CellOf(m.cities[i].pos))
    ensures Spawns(m.turns, |m.cities|) ==> Last(r.bombers) == SpawnBomber(m.cities, rng(m.turns, |m.cities|), trig)
    ensures BomberSighted in r.headline <==> BomberSighted in m.headline || Spawns(m.turns, |m.cities|)
    ensures |r.headline| > 0
    ensures Valid(m) ==> Valid(r)
  {
    var spawn := Spawns(m.turns, |m.cities|);
    var bombers := SpawnPhase(m.turns, m.bombers, m.cities, trig, rng);
    var events := m.headline + (if spawn then [BomberSighted] else []);
    assert BomberSighted in events <==> BomberSighted in m.headline || spawn;
    m.(bombers := bombers, headline := Headline(events))
  }

  /** One call of `update`. */
  function Step(g: Game, trig: Trig, rng: Rng): (g': Game)
    requires RngInRange(rng)
    ensures g'.turns == g.turns + 1
    ensures g'.fighters == Airborne(TurnAll(g.fighters, trig))
    ensures g'.wrecks == g.wrecks + Downed(TurnAll(g.fighters, trig)) + RaidWrecks(g.bombers, g'.fighters, g.cities, trig)
    ensures |g'.wrecks| - |g.wrecks|
            == (|g.fighters| - |g'.fighters|)
             + (|g.bombers| + (if Spawns(g'.turns, |g'.cities|) then 1 else 0) - |g'.bombers|)
    ensures multiset(g'.cities) <= multiset(g.cities)
    ensures |g.cities| - |g'.cities| <= |g.bombers|
    ensures g'.cities == CitiesAfter(g.bombers, g'.fighters, g.cities, trig)
    ensures BomberSighted in g'.headline <==> Spawns(g'.turns, |g'.cities|)
    ensures Spawns(g'.turns, |g'.cities|) ==>
              && |g'.bombers| > 0
              && OnEdge(CellOf(Last(g'.bombers).pos))
              && Last(g'.bombers) == SpawnBomber(g'.cities, rng(g'.turns, |g'.cities|), trig)
              && exists i :: 0 <= i < |g'.cities| && Last(g'.bombers).role == Bomber(CellOf(g'.cities[i].pos))
    ensures |g'.headline| > 0
    ensures Valid(g) ==> Valid(g')
  {
    Finish(Resolve(g, trig), trig, rng)
  }

  /** Over a whole turn, cities are only deleted from the list; those left
      keep their order. */
  lemma StepKeepsCityOrder(g: Game, trig: Trig, rng: Rng)
    requires RngInRange(rng)
    ensures Subseq(Step(g, trig, rng).cities, g.cities)
  {
    CitiesAfterKeepsOrder(g.bombers, Step(g, trig, rng).fighters, g.cities, trig);
  }

  /** The bombers that were on the roster before the turn and are still on
      it after: exactly the moved bombers that flew on, in roster order,
      each judged against the fighters that survived this turn and the
      cities the bombers before it left. None of them is in range of a
      surviving fighter or a standing city. A spawned bomber follows them. */
  lemma StepKeepsFlyingBombers(g: Game, trig: Trig, rng: Rng)
    requires RngInRange(rng)
    ensures var next := Step(g, trig, rng);
            var kept := |next.bombers| - (if Spawns(next.turns, |next.cities|) then 1 else 0);
            && 0 <= kept
            && next.bombers[..kept] == KeepFlying(MoveAll(g.bombers, trig), Fates(g.bombers, next.fighters, g.cities, trig))
            && forall i :: 0 <= i < kept ==> OutOfRange(next.bombers[i], next.fighters, next.cities)
  {
    var m := Resolve(g, trig);
    var next := Finish(m, trig, rng);
    assert next.fighters == m.fighters && next.cities == m.cities && next.turns == m.turns;
    var kept := |next.bombers| - (if Spawns(next.turns, |next.cities|) then 1 else 0);
    assert kept == |m.bombers| && next.bombers[..kept] == m.bombers;
    forall i | 0 <= i < kept
      ensures OutOfRange(next.bombers[i], next.fighters, next.cities)
    {
      assert next.bombers[i] == m.bombers[i];
    }
  }
}
