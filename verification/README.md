# GCI turn engine in Dafny

A verified model of the turn engine of *GCI: Ground Controlled Intercept*.
This is a terminal game on a 50 x 50 map. The player steers four fighters
by typing headings. Bombers appear at the map edges every third turn and fly
toward the cities. Fighters shoot down any bomber within 3 cells, and a
bomber that gets within 1 cell of a city destroys it. A fighter refuels
when its cell is within distance 1 of the base cell, which covers the base
cell and its four neighbours. Any aircraft that runs out of fuel crashes. The
game ends when every city is lost, when every fighter is lost, or after
turn 51.

The model is functional. Planes, cities and wrecks are immutable records.
Rosters are sequences. Each phase of a turn builds its survivor list by
recursion. The floating-point trigonometry and the random draws are passed
in as parameters.

| file | module | models |
|---|---|---|
| `geometry.dfy` | `Geometry` | map size, positions, `get_pos` truncation, map clamp, squared-distance radius checks, city and base cells |
| `heading.dfy` | `Heading` | Python's float `% 360`, the shortest signed heading difference, the rate-limited turn |
| `entities.dfy` | `Entities` | the plane record for both roles, `Plane.update`, `change_heading`, `Fighter.refuel` |
| `seqs.dfy` | `Seqs` | first match in roster order, `list.remove` by index, subsequences |
| `spawner.dfy` | `Spawner` | `spawn_bomber` and the `Bomber` constructor |
| `turn.dfy` | `Turn` | `GameController.update`: fighter phase, bomber phase, spawn check, headline, and reference definitions of the two phases as filters |
| `orders.dfy` | `Orders` | the order loop of `take_inp`, including Python's `int()` on the tokens |
| `gameloop.dfy` | `GameLoop` | the starting state, the `run` loop and the game it plays, `end_game` |

Modelling choices:

- Positions and headings are `real`. A float `a % 360` is floor modulo,
  `Mod360`. Two headings are `Congruent` when they differ by whole turns.
- Fighter headings stay whole numbers. Ordered headings are integers
  reduced mod 360, the turn limit is 90, and the start heading is 0.
  `FighterOk` records this, and every turn and order keeps it.
- A bomber's heading is the `bearing` result, which the model treats as an
  arbitrary real. It is not reduced into [0, 360) at spawn. `BomberOk`
  states what stays true instead: the heading is congruent to the desired
  heading, so the bomber keeps flying its spawn bearing.
- `Trig` supplies `cos`/`sin` (`unitVector`) and `atan2` (`bearing`) in
  degrees. The model checks the turn arithmetic and the clamping, not the
  trigonometry.
- Random draws come from `Rng`, a function from (turn, number of cities) to
  a `Draw` of side, edge offset and city index. It must return in-range
  values, as `randint` does.
- Every radius check compares truncated cells, as `get_pos` does.
  `distance(a, b) <= R` becomes squared distance `<= R*R`. This is exact
  because both cells and `R` are whole numbers.
- The headline is a list of `Event`s. An empty list becomes the placeholder
  `AwaitingOrders`.

Behaviour kept as the code has it:

- The shortest signed difference lies in [-180, 180), so a reversal turns
  through -180.
- The first malformed order pair stops the loop. Later pairs are not read,
  and earlier pairs stay applied.
- Only the second character of a fighter id is read: `x1` and `f12` both
  name fighter 1, and `f0` names no fighter.
- A bombing adds one wreck, at the city. The bomber is removed without a
  wreck of its own.
- Interception uses the fighter roster as filtered earlier in the same turn.
  The first fighter in roster order wins, then the first city in list order.
- A bomber keeps its spawn bearing even after its target city is destroyed.

## Model

| member | source | states |
|---|---|---|
| `Heading.Mod360` | GCI/GCI.py:122-126 | the float `% 360` lands in [0, 360) and names the same direction as its argument |
| `Heading.Mod360Canonical` | GCI/GCI.py:126 | two headings that differ by whole turns wrap to the same value in [0, 360) |
| `Heading.ShortestDiff` | GCI/GCI.py:121-122 | `(d - h + 180) % 360 - 180` lies in [-180, 180), and turning by it from h reaches d |
| `Heading.ShortestDiffIsShortest` | GCI/GCI.py:121-122 | no other turn that reaches the desired heading is shorter |
| `Heading.TurnToward` | GCI/GCI.py:120-126 | the new heading is in [0, 360). It is at most maxTurn from the old heading along the shorter arc. It equals the desired heading when that is within maxTurn, and is otherwise a full maxTurn toward it. A plane already on its bearing keeps it, and whole headings stay whole |
| `Geometry.ClampCoord` | GCI/GCI.py:134-135 | `max(0, min(v, hi))` lies in [0, hi], and leaves a value already in range unchanged |
| `Geometry.ClampToMap` | GCI/GCI.py:133-135 | the clamped position is on the map. Each coordinate is clamped on its own: one in range is kept, one below 0 becomes 0, and one past 49 becomes 49 |
| `Geometry.Trunc` | GCI/GCI.py:79-80 | `int()` on a float rounds toward zero |
| `Entities.Advance` | GCI/GCI.py:116-137 | nothing changes when fuel <= 0. Otherwise fuel drops by exactly 1, the heading takes the rate-limited turn, and the new position is the displaced point clamped to the map axis by axis. The move is exact when it stays on the map, and the role and desired heading are unchanged |
| `Entities.ChangeHeading` | GCI/GCI.py:113-114 | the stored desired heading is a whole number in [0, 360), congruent to the order, and nothing else changes |
| `Entities.FighterTurn` | GCI/GCI.py:244-251 | the fighter changes as `update` makes it, except for fuel. A valid fighter ends with full fuel exactly when its new cell is within 1 of the base, even if the move emptied its tank. Otherwise its fuel drops by 1 |
| `Seqs.FirstIndex` | GCI/GCI.py:278-283 | the scan returns the first element that matches, and returns nothing only when no element matches |
| `Seqs.RemoveAt` | GCI/GCI.py:291-294 | removing one city keeps all the others in order, and the city multiset loses exactly that city |
| `Spawner.SpawnCellsAreEdgeCells` | GCI/GCI.py:210-217 | the four spawn branches reach exactly the border cells of the map |
| `Spawner.SpawnBomber` | GCI/GCI.py:153-220 | the new bomber sits exactly on the drawn border point and aims at the drawn living city's cell (`spawn_bomber`, lines 200-220). The `Bomber` constructor (lines 153-177) snaps the heading and the desired heading to the bearing from that point to the target cell, and fills the tank |
| `Turn.FighterPhase` | GCI/GCI.py:240-263 | survivors plus wrecks account for every fighter, survivors have fuel, and valid fighters stay valid |
| `Turn.FighterPhaseIsFilter` | GCI/GCI.py:242-263 | the new roster is exactly the fighters with fuel after moving and refuelling, in their original order. The new wrecks are exactly those of the others, in order |
| `Turn.FateOf` | GCI/GCI.py:270-296 | an empty tank means a crash. Otherwise the first fighter in roster order within 3 shoots the bomber down. Otherwise the first city in list order within 1 (inclusive) is bombed. Otherwise the bomber flies on |
| `Turn.BomberStep` | GCI/GCI.py:267-299 | a crash or a shoot-down adds one wreck at the bomber's cell and leaves the cities alone. A bombing removes that one city, keeps the others in order, and adds one wreck at the city. A flying bomber stays on the roster |
| `Turn.BomberPhase` | GCI/GCI.py:265-302 | every removed bomber leaves exactly one wreck (where each lies is `Turn.BomberPhaseWrecks`). Cities are only ever removed, at most one per removed bomber. No bomber left on the roster is within range of any fighter it was checked against or of any city still standing. Valid bombers stay valid |
| `Turn.BomberPhaseIsFilter` | GCI/GCI.py:265-302 | the new roster is exactly the moved bombers whose fate was to fly on, in roster order. Each fate is judged against the given fighters and the cities the earlier bombers left standing |
| `Turn.BomberPhaseWrecks` | GCI/GCI.py:270-296 | the new wrecks are, in roster order, one per removed bomber: on the bomber's own cell after a crash (273) or a shoot-down (281), and at the bombed city's position, in the list that bomber saw, after a bombing (293). A bomber that flies on leaves none |
| `Turn.RemoveAtSubseq` | GCI/GCI.py:291-294 | removing the bombed city leaves the other cities as a subsequence of the list, in their order |
| `Turn.BomberPhaseCities` | GCI/GCI.py:286-294 | the cities left are those standing after each bomber's raid in turn |
| `Turn.CitiesAfterKeepsOrder` | GCI/GCI.py:286-294 | however many raids there are, the cities left are the old list with some deleted, the rest in their order |
| `Turn.BomberPhaseKeepsOrder` | GCI/GCI.py:265-302 | the bomber loop leaves the city list with some cities deleted and the others in their order |
| `Turn.SpawnPhase` | GCI/GCI.py:304-308 | a bomber is added exactly on turns divisible by 3 while a city stands. It goes at the end of the roster, on a border cell, aimed at a living city. It is exactly the bomber `spawn_bomber` builds from that turn's draws |
| `Turn.Headline` | GCI/GCI.py:311-313 | the headline is never empty, and it is the placeholder only when nothing was reported |
| `Turn.Resolve` | GCI/GCI.py:235-302 | the turn counter rises by 1 and the fighter roster is the fighter filter. The bomber roster is the bomber filter run against those surviving fighters, and the cities are the ones it leaves. No remaining bomber is in range of a surviving fighter or a standing city. The wrecks are the old ones, then the crashed fighters' in roster order, then the bomber loop's in roster order. A valid game stays valid |
| `Turn.Finish` | GCI/GCI.py:304-313 | only the bombers and the headline change. A bomber is appended exactly when the spawn check passes, on a border cell and aimed at a standing city: the bomber `spawn_bomber` builds from that turn's draws. A sighting is reported exactly then, and the headline is never empty |
| `Turn.Step` | GCI/GCI.py:235-313 | `turns` rises by exactly 1, and the fighter roster is the fighter filter. The cities are those the bomber filter leaves when run against the surviving fighters, with at most one lost per bomber. The wrecks are the old ones, then the crashed fighters', then the bomber loop's, each in roster order, and each removed aircraft adds exactly one. A sighting is reported exactly when a bomber spawns, and the spawned bomber is the one `spawn_bomber` builds from that turn's draws. The headline is non-empty, and a valid game stays valid |
| `Turn.StepKeepsCityOrder` | GCI/GCI.py:286-294 | over a whole turn the city list only loses cities, and those left keep their order |
| `Turn.StepKeepsFlyingBombers` | GCI/GCI.py:263-308 | after a whole turn, the roster minus any spawned bomber is exactly the bomber filter run against the fighters that survived this turn. None of those bombers is in range of a surviving fighter or a standing city |
| `Orders.ParseIntOfShowInt` | GCI/GCI.py:387 | `int()` reads any integer written in decimal back as that integer |
| `Orders.ParsePairReadsOneChar` | GCI/GCI.py:383-387 | `int(fighter_id_str[1])` reads only the id's second character: two ids that agree there give the same result |
| `Orders.ParsePairOfShowInt` | GCI/GCI.py:383-387 | an id whose second character is a digit, paired with a heading in plain decimal, is read as the order for fighter digit - 1 with exactly that heading |
| `Orders.ParseOrders` | GCI/GCI.py:379-397 | the parsed orders are the leading well-formed pairs in token order. Parsing ends without error exactly when every token was consumed. Otherwise the error is that of the first malformed pair |
| `Orders.FirstBadPairStops` | GCI/GCI.py:380-397 | after a malformed pair, nothing that follows is read, and the orders before it are kept |
| `Orders.ApplyOrders` | GCI/GCI.py:382-393 | the loop stops with the parse's error. Each fighter's desired heading comes from the last order naming it, taken mod 360, and no other field changes. Out-of-range fighter numbers are reported and change nothing |
| `Orders.OrdersKeepFightersOk` | GCI/GCI.py:390-391 | applying a line of orders keeps a valid roster valid |
| `GameLoop.Verdict` | GCI/GCI.py:226-233 | cities lost takes precedence over fighters lost, which takes precedence over victory, and the three cases cover every game |
| `GameLoop.VictoryMeansTimeRanOut` | GCI/GCI.py:405-412 | a finished game is won exactly when the turn limit was passed with a city and a fighter left |
| `GameLoop.Initial` | GCI/GCI.py:184-198 | the game starts valid and running, with four fighters, four cities, no bombers and no wrecks |
| `GameLoop.Play` | GCI/GCI.py:404-410 | the game as the loop plays it: while the guard holds, one `update`, then that turn's orders applied to the surviving fighters. It ends where the guard fails, after at most turn 52, a valid game stays valid, and a running game plays at least one turn |
| `GameLoop.Run` | GCI/GCI.py:401-412 | the loop ends in exactly the game `Play` gives from the start, and there the guard fails. That game is valid and comes after at most turn 52. The outcome is `end_game`'s choice, and a victory means the turn limit was passed |

## Left out

- `draw` and `clrs`: rendering the map, printing, and clearing the screen are output only.
- `title_card`, the message strings and the headline's wording: only the
  headline's events are modelled. Roster numbers in events start at 0,
  where the text prints them from 1.
- `input()` and `str.split()` in `take_inp`: the model starts from the token list.
- `score`: it is never changed or read.
- `alive`: whether a plane is alive is given by whether it is on a roster.
- `math.cos`, `math.sin`, `math.atan2` and `math.radians`/`degrees` are supplied functions (`Trig`). Floating-point rounding is not modelled: reals are exact.
- `random.randint` is replaced by the supplied `Rng`.
- `set_heading_towards_target` with `instant=False`: nothing calls it.
- The `except Exception` branch of `take_inp`: nothing in the loop raises anything else.
- `Orders.ParseInt`: accepts ASCII digits only. Python's `int()` also accepts other Unicode decimal digits, so the model rejects headings that Python accepts, and the rejection stops the remaining orders.
- `Orders.ParsePair`: reads the id's second character as an ASCII digit only. `int(fighter_id_str[1])` also accepts any other Unicode decimal digit, and the model rejects such an id, which stops the remaining orders.
- `Orders.ParseInt`: has no length limit. Python 3.11 and later refuses to convert a decimal string of more than 4300 digits, which ends the order loop with an error. The model reads any length.
- `subTest.py`: an unfinished submarine prototype, outside the game.
