/** Compass arithmetic in degrees: floor modulo 360, the shortest signed
    difference between two headings, and the rate-limited turn. */
module Heading {

  function Abs(x: real): real {
    if x < 0.0 then -x else x
  }

  /** x is a whole number. */
  predicate Whole(x: real) {
    x.Floor as real == x
  }

  /** a and b name the same compass direction: they differ by whole turns. */
  predicate Congruent(a: real, b: real) {
    Whole((a - b) / 360.0)
  }

  /** Python's float `a % 360`: floor modulo, so the result is never negative. */
  function Mod360(a: real): (r: real)
    ensures 0.0 <= r < 360.0
    ensures Congruent(a, r)
  {
    a - 360.0 * (a / 360.0).Floor as real
  }

  lemma FloorOfWhole(n: int)
    ensures Whole(n as real) && (n as real).Floor == n
  {
  }

  lemma WholeSum(a: real, b: real)
    requires Whole(a) && Whole(b)
    ensures Whole(a + b) && Whole(a - b) && Whole(-a)
  {
    var i, j := a.Floor, b.Floor;
    FloorOfWhole(i + j);
    FloorOfWhole(i - j);
    FloorOfWhole(-i);
    assert a + b == (i + j) as real;
    assert a - b == (i - j) as real;
    assert -a == (-i) as real;
  }

  lemma CongruentSymmetric(a: real, b: real)
    requires Congruent(a, b)
    ensures Congruent(b, a)
  {
    assert (b - a) / 360.0 == -((a - b) / 360.0);
    WholeSum((a - b) / 360.0, 0.0);
  }

  lemma CongruentTransitive(a: real, b: real, c: real)
    requires Congruent(a, b) && Congruent(b, c)
    ensures Congruent(a, c)
  {
    assert (a - c) / 360.0 == (a - b) / 360.0 + (b - c) / 360.0;
    WholeSum((a - b) / 360.0, (b - c) / 360.0);
  }

  /** Adding the same amount to both sides keeps two directions congruent. */
  lemma CongruentShift(a: real, b: real, s: real)
    requires Congruent(a, b)
    ensures Congruent(a + s, b + s)
  {
    assert (a + s - (b + s)) / 360.0 == (a - b) / 360.0;
  }

  /** Floor modulo picks one representative per direction. */
  lemma {:induction false} Mod360Canonical(a: real, b: real)
    requires Congruent(a, b)
    ensures Mod360(a) == Mod360(b)
  {
    var k := ((a - b) / 360.0).Floor;
    assert a / 360.0 == b / 360.0 + k as real;
    var fa := (a / 360.0).Floor;
    var fb := (b / 360.0).Floor;
    assert fb as real + k as real <= a / 360.0 < fb as real + k as real + 1.0;
    assert fa == fb + k;
  }

  lemma Mod360Fixed(a: real)
    requires 0.0 <= a < 360.0
    ensures Mod360(a) == a
  {
    assert (a / 360.0).Floor == 0;
  }

  lemma Mod360Whole(a: real)
    requires Whole(a)
    ensures Whole(Mod360(a))
  {
    var q := (a / 360.0).Floor;
    assert Mod360(a) == (a.Floor - 360 * q) as real;
  }

  /** `(to - from + 180) % 360 - 180`: the signed turn from `from` to `to`. */
  function ShortestDiff(from: real, to: real): (r: real)
    ensures -180.0 <= r < 180.0
    ensures Congruent(from + r, to)
  {
    var m := Mod360(to - from + 180.0);
    CongruentShift(to - from + 180.0, m, from - 180.0);
    CongruentSymmetric(to, m + from - 180.0);
    m - 180.0
  }

  /** No other turn that reaches `to` is shorter than ShortestDiff. */
  lemma ShortestDiffIsShortest(from: real, to: real, turn: real)
    requires Congruent(from + turn, to)
    ensures Abs(ShortestDiff(from, to)) <= Abs(turn)
  {
    var d := ShortestDiff(from, to);
    CongruentSymmetric(from + d, to);
    CongruentTransitive(from + turn, to, from + d);
    var k := ((turn - d) / 360.0).Floor;
    assert (from + turn - (from + d)) / 360.0 == (turn - d) / 360.0;
    assert turn == d + 360.0 * k as real;
    if k > 0 {
      assert turn >= d + 360.0;
    } else if k < 0 {
      assert turn <= d - 360.0;
    }
  }

  /** A turn of `delta` on the shorter arc is measured back as `delta`. */
  lemma ShortestDiffOfTurn(h: real, delta: real)
    requires -180.0 <= delta < 180.0
    ensures ShortestDiff(h, Mod360(h + delta)) == delta
  {
    var r := Mod360(h + delta);
    CongruentShift(h + delta, r, 180.0 - h);
    assert h + delta + (180.0 - h) == delta + 180.0;
    assert r + (180.0 - h) == r - h + 180.0;
    CongruentSymmetric(delta + 180.0, r - h + 180.0);
    Mod360Canonical(r - h + 180.0, delta + 180.0);
    Mod360Fixed(delta + 180.0);
  }

  /** `max(-maxTurn, min(maxTurn, diff))`. */
  function ClampTurn(diff: real, maxTurn: nat): real {
    var m := maxTurn as real;
    if m < diff then m else if diff < -m then -m else diff
  }

  /** The heading step of `Plane.update`: turn toward the desired heading
      along the shorter arc by at most `maxTurn`, then wrap into [0, 360). */
  function TurnToward(h: real, desired: real, maxTurn: nat): (r: real)
    ensures 0.0 <= r < 360.0
    ensures Abs(ShortestDiff(h, r)) <= maxTurn as real
    ensures Abs(ShortestDiff(h, desired)) <= maxTurn as real ==> r == Mod360(desired)
    ensures ShortestDiff(h, desired) > maxTurn as real ==> ShortestDiff(h, r) == maxTurn as real
    ensures ShortestDiff(h, desired) < -(maxTurn as real) ==> ShortestDiff(h, r) == -(maxTurn as real)
    ensures Congruent(h, desired) ==> r == Mod360(desired)
    ensures Whole(h) && Whole(desired) ==> Whole(r)
  {
    var delta := ClampTurn(ShortestDiff(h, desired), maxTurn);
    TurnFacts(h, desired, maxTurn);
    Mod360(h + delta)
  }

  lemma TurnFacts(h: real, desired: real, maxTurn: nat)
    ensures var diff := ShortestDiff(h, desired);
            var r := Mod360(h + ClampTurn(diff, maxTurn));
            && ShortestDiff(h, r) == ClampTurn(diff, maxTurn)
            && (Abs(diff) <= maxTurn as real ==> r == Mod360(desired))
            && (Congruent(h, desired) ==> r == Mod360(desired))
            && (Whole(h) && Whole(desired) ==> Whole(r))
  {
    var diff := ShortestDiff(h, desired);
    var delta := ClampTurn(diff, maxTurn);
    ShortestDiffOfTurn(h, delta);
    if Abs(diff) <= maxTurn as real {
      Mod360Canonical(h + delta, desired);
    }
    if Congruent(h, desired) {
      OnBearing(h, desired);
      Mod360Canonical(h + delta, desired);
    }
    if Whole(h) && Whole(desired) {
      TurnWhole(h, desired, maxTurn);
    }
  }

  /** A plane already pointing along its desired heading has nothing to turn. */
  lemma OnBearing(h: real, desired: real)
    requires Congruent(h, desired)
    ensures ShortestDiff(h, desired) == 0.0
  {
    CongruentSymmetric(h, desired);
    CongruentShift(desired, h, 180.0 - h);
    assert desired + (180.0 - h) == desired - h + 180.0;
    Mod360Canonical(desired - h + 180.0, 180.0);
    Mod360Fixed(180.0);
  }

  lemma TurnWhole(h: real, desired: real, maxTurn: nat)
    requires Whole(h) && Whole(desired)
    ensures Whole(Mod360(h + ClampTurn(ShortestDiff(h, desired), maxTurn)))
  {
    var diff := ShortestDiff(h, desired);
    WholeSum(desired, h);
    WholeSum(desired - h, 180.0);
    Mod360Whole(desired - h + 180.0);
    WholeSum(Mod360(desired - h + 180.0), 180.0);
    assert Whole(diff);
    FloorOfWhole(maxTurn);
    WholeSum(maxTurn as real, 0.0);
    var delta := ClampTurn(diff, maxTurn);
    assert Whole(delta);
    WholeSum(h, delta);
    Mod360Whole(h + delta);
  }
}
