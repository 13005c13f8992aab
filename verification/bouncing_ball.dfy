/** The bouncing-ball physics of art/BouncingBall.js: a closed-form ballistic
    step, exact wall/floor crossing times, damped bounces, recursive
    sub-stepping on the time left after a bounce, and the two samplers that
    drive it. Numbers are exact reals; the y axis points down, so gravity is
    positive, the edge at y = BallR is the top of the box and the edge at
    y = height - BallR its bottom. */
module BouncingBall {
  import opened Wrappers
  import Util

  const Gravity: real := 3000.0
  const SimulationPeriod: real := 3.5
  const TimeStep: real := 0.13
  const BallR: real := 40.0
  const BounceFactor: real := 0.8

  /** Position of the ball's centre and its velocity. */
  datatype Ball = Ball(x: real, y: real, vx: real, vy: real)

  /** What a simulation reads from outside the physics: the box size (set by
      the resize handler between runs) and the host's square root. */
  datatype World = World(width: real, height: real, sqrt: real -> real)

  /** The contract `Math.sqrt` meets on exact reals. */
  ghost predicate IsSqrt(sqrt: real -> real)
  {
    forall d :: 0.0 <= d ==> 0.0 <= sqrt(d) && sqrt(d) * sqrt(d) == d
  }

  // ---------------------------------------------------------------------------
  // reducePrecision: Number.parseFloat(x.toFixed(decimals)) on exact reals
  // ---------------------------------------------------------------------------

  /** 10^n. */
  function Pow10(n: nat): (p: real)
    ensures p >= 1.0
  {
    if n == 0 then 1.0 else 10.0 * Pow10(n - 1)
  }

  /** toFixed on a non-negative number, at scale p = 10^decimals: the nearest
      multiple of 1/p, the larger one on a tie. */
  function RoundTo(x: real, p: real): real
    requires p > 0.0
  {
    ((x * p + 0.5).Floor as real) / p
  }

  /** `reducePrecision(x, decimals)` (BouncingBall.js:27-29): toFixed rounds the
      magnitude half away from zero and keeps the sign; from 10^21 upwards it
      prints the number itself, which parses back unchanged. */
  function ReducePrecision(x: real, decimals: nat): real
  {
    if x <= -1_000_000_000_000_000_000_000.0 || 1_000_000_000_000_000_000_000.0 <= x then x
    else if x < 0.0 then -RoundTo(-x, Pow10(decimals))
    else RoundTo(x, Pow10(decimals))
  }

  /** Half a unit in the last kept decimal, at scale p. */
  function HalfUnit(p: real): (h: real)
    requires p >= 1.0
    ensures 0.0 < h <= 0.5
  {
    0.5 / p
  }

  lemma RoundToError(x: real, p: real)
    requires p >= 1.0
    ensures -HalfUnit(p) < RoundTo(x, p) - x <= HalfUnit(p)
  {
    var n := (x * p + 0.5).Floor as real;
    assert x * p - 0.5 < n <= x * p + 0.5;
    assert n / p - x == (n - x * p) / p;
  }

  /** Rounding moves a value by at most half a unit in the last kept decimal. */
  lemma ReducePrecisionError(x: real, decimals: nat)
    ensures -HalfUnit(Pow10(decimals)) <= ReducePrecision(x, decimals) - x <= HalfUnit(Pow10(decimals))
  {
    var p := Pow10(decimals);
    if x <= -1_000_000_000_000_000_000_000.0 || 1_000_000_000_000_000_000_000.0 <= x {
    } else if x < 0.0 {
      RoundToError(-x, p);
    } else {
      RoundToError(x, p);
    }
  }

  lemma {:induction false} Pow10Integral(n: nat)
    ensures Pow10(n).Floor as real == Pow10(n)
  {
    if n > 0 {
      Pow10Integral(n - 1);
      var k := Pow10(n - 1).Floor;
      assert Pow10(n) == (10 * k) as real;
    }
  }

  lemma RoundToInteger(m: int, p: real)
    requires p >= 1.0 && p.Floor as real == p
    ensures RoundTo(m as real, p) == m as real
  {
    var k := p.Floor;
    assert (m as real) * p == (m * k) as real;
    var n := ((m as real) * p + 0.5).Floor;
    FloorHalf(m * k);
    assert RoundTo(m as real, p) == (n as real) / p;
    MulDivCancel(m as real, p);
  }

  lemma FloorHalf(j: int)
    ensures ((j as real) + 0.5).Floor == j
  {
  }

  lemma MulDivCancel(a: real, p: real)
    requires p != 0.0
    ensures (a * p) / p == a
  {
  }

  /** Whole numbers are left as they are. */
  lemma ReducePrecisionInteger(m: int, decimals: nat)
    ensures ReducePrecision(m as real, decimals) == m as real
  {
    Pow10Integral(decimals);
    RoundToInteger(m, Pow10(decimals));
    RoundToInteger(-m, Pow10(decimals));
  }

  lemma RoundToZero(x: real)
    requires x >= 0.0
    ensures RoundTo(x, 1000.0) == 0.0 <==> x < 0.0005
  {
    var n := (x * 1000.0 + 0.5).Floor;
    assert RoundTo(x, 1000.0) == (n as real) / 1000.0;
  }

  /** A value rounds to zero at 3 decimals exactly when it is below 0.0005 in magnitude. */
  lemma ReducePrecisionZero(x: real)
    ensures ReducePrecision(x, 3) == 0.0 <==> -0.0005 < x < 0.0005
  {
    assert Pow10(3) == 1000.0;
    if x < 0.0 {
      RoundToZero(-x);
    } else {
      RoundToZero(x);
    }
  }

  // ---------------------------------------------------------------------------
  // Ballistic integrator
  // ---------------------------------------------------------------------------

  /** `simulateWithoutCollisions(data, dt)` (BouncingBall.js:47-54): closed-form
      motion under constant gravity. */
  function SimulateWithoutCollisions(data: Ball, dt: real): (r: Ball)
    ensures r.vx == data.vx
    ensures dt == 0.0 ==> r == data
  {
    Ball(data.x + data.vx * dt,
         data.y + data.vy * dt + 0.5 * Gravity * dt * dt,
         data.vx,
         data.vy + Gravity * dt)
  }

  /** Free flight for no time is the identity, and flights compose: flying a
      then b is flying a + b. */
  lemma FreeFlightComposes(data: Ball, a: real, b: real)
    ensures SimulateWithoutCollisions(data, 0.0) == data
    ensures SimulateWithoutCollisions(SimulateWithoutCollisions(data, a), b)
         == SimulateWithoutCollisions(data, a + b)
  {
    var mid := SimulateWithoutCollisions(data, a);
    var two := SimulateWithoutCollisions(mid, b);
    var one := SimulateWithoutCollisions(data, a + b);
    FallComposes(data.y, data.vy, Gravity, a, b);
    assert two.x == one.x by {
      assert data.vx * a + data.vx * b == data.vx * (a + b);
    }
    assert two.vy == one.vy by {
      assert Gravity * a + Gravity * b == Gravity * (a + b);
    }
    assert two.y == one.y;
  }

  /** The height under constant acceleration g composes over two intervals. */
  lemma FallComposes(y: real, vy: real, g: real, a: real, b: real)
    ensures (y + vy * a + 0.5 * g * a * a) + (vy + g * a) * b + 0.5 * g * b * b
         == y + vy * (a + b) + 0.5 * g * (a + b) * (a + b)
  {
    assert (vy + g * a) * b == vy * b + g * a * b;
    assert (a + b) * (a + b) == a * a + 2.0 * a * b + b * b;
    assert 0.5 * g * (a + b) * (a + b) == 0.5 * g * ((a + b) * (a + b));
  }

  /** Free flight keeps vx and conserves energy: vy'^2 - vy^2 == 2 g (y' - y). */
  lemma FreeFlightEnergy(data: Ball, dt: real)
    ensures var after := SimulateWithoutCollisions(data, dt);
      after.vx == data.vx &&
      after.vy * after.vy - data.vy * data.vy == 2.0 * Gravity * (after.y - data.y)
  {
    var after := SimulateWithoutCollisions(data, dt);
    assert after.vy * after.vy == data.vy * data.vy + 2.0 * Gravity * data.vy * dt + Gravity * Gravity * dt * dt;
  }

  // ---------------------------------------------------------------------------
  // Crossing times
  // ---------------------------------------------------------------------------

  /** `getIntersectionTimeX(data, wallX)` (BouncingBall.js:31-34): the time at
      which the centre reaches x = wallX, computed from the distance rounded to
      10 decimals. With vx == 0 JavaScript divides by zero and gets an infinity
      or NaN, which the filter at BouncingBall.js:88 drops: the model says None.
      Otherwise the ball lands on the wall up to the rounding of the distance. */
  function GetIntersectionTimeX(data: Ball, wallX: real): (r: Option<real>)
    ensures r.None? <==> data.vx == 0.0
    ensures r.Some? ==> NearWall(data, wallX, r.value, WallDecimals)
  {
    if data.vx == 0.0 then None
    else
      LandsNearWall(data, wallX, WallDecimals);
      Some(ReducePrecision(wallX - data.x, WallDecimals) / data.vx)
  }

  /** The decimals getIntersectionTimeX keeps of the distance to the wall. */
  const WallDecimals: nat := 10

  /** After time t the centre is within half a unit of the last kept decimal of wallX. */
  predicate NearWall(data: Ball, wallX: real, t: real, decimals: nat)
  {
    -HalfUnit(Pow10(decimals)) <= data.x + data.vx * t - wallX <= HalfUnit(Pow10(decimals))
  }

  lemma LandsNearWall(data: Ball, wallX: real, decimals: nat)
    requires data.vx != 0.0
    ensures NearWall(data, wallX, ReducePrecision(wallX - data.x, decimals) / data.vx, decimals)
  {
    var dist := ReducePrecision(wallX - data.x, decimals);
    ReducePrecisionError(wallX - data.x, decimals);
    assert data.vx * (dist / data.vx) == dist;
  }

  /** With a whole-number distance to the wall the crossing time is exact. */
  lemma WallTimeExact(data: Ball, wallX: real, m: int)
    requires wallX - data.x == m as real
    requires data.vx != 0.0
    ensures data.x + data.vx * GetIntersectionTimeX(data, wallX).value == wallX
  {
    ReducePrecisionInteger(m, WallDecimals);
    var dist := ReducePrecision(wallX - data.x, WallDecimals);
    assert dist == wallX - data.x;
    assert data.vx * (dist / data.vx) == dist;
  }

  /** The quadratic a*t*t + b*t + c. */
  function Quad(a: real, b: real, c: real, t: real): real
  {
    a * t * t + b * t + c
  }

  /** `solveQuadratic(a, b, c)` (BouncingBall.js:39-45): null when the
      discriminant is negative, otherwise (-b + sqrt(D)) / (2a). The callers
      always pass a = gravity / 2, so a is never 0. */
  function SolveQuadratic(sqrt: real -> real, a: real, b: real, c: real): (r: Option<real>)
    requires a != 0.0
    ensures r.None? <==> b * b - 4.0 * a * c < 0.0
  {
    var determinant := b * b - (4.0 * a * c);
    if determinant < 0.0 then None
    else Some((-1.0 * b + sqrt(determinant)) / (2.0 * a))
  }

  /** 4a * Quad(t) == (2at + b)^2 - D. */
  lemma CompleteSquare(a: real, b: real, c: real, t: real)
    ensures 4.0 * a * Quad(a, b, c, t) == (2.0 * a * t + b) * (2.0 * a * t + b) - (b * b - 4.0 * a * c)
  {
  }

  lemma SquareRootsOfSquare(u: real, s: real)
    requires s >= 0.0 && u * u == s * s
    ensures u == s || u == -s
  {
    assert (u - s) * (u + s) == 0.0;
  }

  /** With a negative discriminant the quadratic has no real root. */
  lemma NoRealRoot(a: real, b: real, c: real, t: real)
    requires b * b - 4.0 * a * c < 0.0
    ensures Quad(a, b, c, t) != 0.0
  {
    CompleteSquare(a, b, c, t);
    var u := 2.0 * a * t + b;
    assert u * u >= 0.0;
  }

  /** (-b + s) / 2a is a root when s is a square root of the discriminant. */
  lemma RootFromSqrt(a: real, b: real, c: real, s: real)
    requires a != 0.0 && s * s == b * b - 4.0 * a * c
    ensures Quad(a, b, c, (-1.0 * b + s) / (2.0 * a)) == 0.0
  {
    var r := (-1.0 * b + s) / (2.0 * a);
    assert 2.0 * a * r + b == s;
    CompleteSquare(a, b, c, r);
    assert 4.0 * a * Quad(a, b, c, r) == 0.0;
  }

  /** For a > 0, no root lies beyond (-b + s) / 2a with s the non-negative
      square root of the discriminant. */
  lemma NoLaterRoot(a: real, b: real, c: real, s: real, t: real)
    requires a > 0.0 && s >= 0.0 && s * s == b * b - 4.0 * a * c
    requires Quad(a, b, c, t) == 0.0
    ensures t <= (-1.0 * b + s) / (2.0 * a)
  {
    var r := (-1.0 * b + s) / (2.0 * a);
    assert 2.0 * a * r + b == s;
    CompleteSquare(a, b, c, t);
    var u := 2.0 * a * t + b;
    SquareRootsOfSquare(u, s);
    assert 2.0 * a * t <= 2.0 * a * r;
  }

  /** solveQuadratic returns null exactly when the quadratic has no real root;
      otherwise it returns a root, and for a > 0 the largest one. */
  lemma SolveQuadraticRoots(sqrt: real -> real, a: real, b: real, c: real)
    requires IsSqrt(sqrt)
    requires a != 0.0
    ensures SolveQuadratic(sqrt, a, b, c).None? <==> forall t :: Quad(a, b, c, t) != 0.0
    ensures SolveQuadratic(sqrt, a, b, c).Some? ==>
      var r := SolveQuadratic(sqrt, a, b, c).value;
      Quad(a, b, c, r) == 0.0 &&
      (a > 0.0 ==> forall t :: Quad(a, b, c, t) == 0.0 ==> t <= r)
  {
    var d := b * b - 4.0 * a * c;
    if d < 0.0 {
      forall t ensures Quad(a, b, c, t) != 0.0 {
        NoRealRoot(a, b, c, t);
      }
    } else {
      var s := sqrt(d);
      assert s >= 0.0 && s * s == d;
      RootFromSqrt(a, b, c, s);
      if a > 0.0 {
        forall t | Quad(a, b, c, t) == 0.0 ensures t <= (-1.0 * b + s) / (2.0 * a) {
          NoLaterRoot(a, b, c, s, t);
        }
      }
    }
  }

  /** `getIntersectionTimeY(data, floorY)` (BouncingBall.js:35-38): the vertical
      crossing time from the quadratic 0.5*g*t*t + vy*t + (y - floorY) = 0. */
  function GetIntersectionTimeY(w: World, data: Ball, floorY: real): (r: Option<real>)
    ensures r.None? <==> data.vy * data.vy < 2.0 * Gravity * (data.y - floorY)
  {
    SolveQuadratic(w.sqrt, 0.5 * Gravity, data.vy, data.y - floorY)
  }

  /** The vertical crossing time is None exactly when the free-flight path
      never reaches height floorY; otherwise it is the LAST time the path is
      at that height (the later of the two crossings). */
  lemma VerticalCrossing(w: World, data: Ball, floorY: real)
    requires IsSqrt(w.sqrt)
    ensures GetIntersectionTimeY(w, data, floorY).None? <==>
      forall t :: SimulateWithoutCollisions(data, t).y != floorY
    ensures GetIntersectionTimeY(w, data, floorY).Some? ==>
      var t := GetIntersectionTimeY(w, data, floorY).value;
      SimulateWithoutCollisions(data, t).y == floorY &&
      forall t' :: SimulateWithoutCollisions(data, t').y == floorY ==> t' <= t
  {
    var a, b, c := 0.5 * Gravity, data.vy, data.y - floorY;
    SolveQuadraticRoots(w.sqrt, a, b, c);
    forall t ensures SimulateWithoutCollisions(data, t).y - floorY == Quad(a, b, c, t) {
    }
  }

  // ---------------------------------------------------------------------------
  // Collision detection: the four candidates, the (0, dt] filter, the sort
  // ---------------------------------------------------------------------------

  /** The four edges the centre can reach, in the order simulate lists them. */
  datatype Edge = Left | Right | Top | Bottom

  function EdgeRank(e: Edge): nat
  {
    match e
    case Left => 0
    case Right => 1
    case Top => 2
    case Bottom => 3
  }

  /** An entry of the `intersects` list before filtering. */
  datatype Candidate = Candidate(t: Option<real>, edge: Edge)

  /** An entry that survived the filter. */
  datatype Hit = Hit(t: real, edge: Edge)

  /** The four crossing times simulate computes (BouncingBall.js:77-87), against
      the centre's limits BallR and width/height - BallR, in list order. */
  function Candidates(w: World, data: Ball): (cs: seq<Candidate>)
    ensures |cs| == 4
    ensures forall i :: 0 <= i < |cs| ==> EdgeRank(cs[i].edge) == i
  {
    [Candidate(GetIntersectionTimeX(data, BallR), Left),
     Candidate(GetIntersectionTimeX(data, w.width - BallR), Right),
     Candidate(GetIntersectionTimeY(w, data, BallR), Top),
     Candidate(GetIntersectionTimeY(w, data, w.height - BallR), Bottom)]
  }

  /** The filter `t !== null && 0 < t && t <= dt`. */
  predicate InWindow(t: Option<real>, dt: real)
  {
    t.Some? && 0.0 < t.value <= dt
  }

  predicate EdgesAscend(cs: seq<Candidate>)
  {
    forall i, j :: 0 <= i < j < |cs| ==> EdgeRank(cs[i].edge) < EdgeRank(cs[j].edge)
  }

  predicate HitEdgesAscend(hs: seq<Hit>)
  {
    forall i, j :: 0 <= i < j < |hs| ==> EdgeRank(hs[i].edge) < EdgeRank(hs[j].edge)
  }

  /** The `.filter(...)` of BouncingBall.js:88. */
  function WithinStep(cs: seq<Candidate>, dt: real): (hs: seq<Hit>)
    ensures |hs| <= |cs|
  {
    if cs == [] then []
    else if InWindow(cs[0].t, dt) then [Hit(cs[0].t.value, cs[0].edge)] + WithinStep(cs[1..], dt)
    else WithinStep(cs[1..], dt)
  }

  /** Everything the filter keeps is a candidate whose time lies in (0, dt]. */
  lemma {:induction false} WithinStepSound(cs: seq<Candidate>, dt: real)
    ensures forall h :: h in WithinStep(cs, dt) ==> Candidate(Some(h.t), h.edge) in cs && 0.0 < h.t <= dt
  {
    if cs != [] {
      WithinStepSound(cs[1..], dt);
      assert forall c :: c in cs[1..] ==> c in cs;
    }
  }

  /** The filter keeps every candidate whose time lies in (0, dt]. */
  lemma {:induction false} WithinStepComplete(cs: seq<Candidate>, dt: real)
    ensures forall i :: 0 <= i < |cs| && InWindow(cs[i].t, dt) ==> Hit(cs[i].t.value, cs[i].edge) in WithinStep(cs, dt)
  {
    if cs != [] {
      WithinStepComplete(cs[1..], dt);
      forall i | 0 < i < |cs| && InWindow(cs[i].t, dt)
        ensures Hit(cs[i].t.value, cs[i].edge) in WithinStep(cs, dt)
      {
        assert cs[i] == cs[1..][i - 1];
      }
    }
  }

  /** Every candidate's edge comes after rank b in list order. */
  predicate RanksAbove(b: int, cs: seq<Candidate>)
  {
    forall i :: 0 <= i < |cs| ==> b < EdgeRank(cs[i].edge)
  }

  predicate HitRanksAbove(b: int, hs: seq<Hit>)
  {
    forall i :: 0 <= i < |hs| ==> b < EdgeRank(hs[i].edge)
  }

  lemma {:induction false} WithinStepRanksAbove(b: int, cs: seq<Candidate>, dt: real)
    requires RanksAbove(b, cs)
    ensures HitRanksAbove(b, WithinStep(cs, dt))
  {
    if cs != [] {
      WithinStepRanksAbove(b, cs[1..], dt);
      var rest := WithinStep(cs[1..], dt);
      var r := WithinStep(cs, dt);
      if InWindow(cs[0].t, dt) {
        forall i | 0 < i < |r| ensures b < EdgeRank(r[i].edge) {
          assert r[i] == rest[i - 1];
        }
      }
    }
  }

  /** The filter keeps list order. */
  lemma {:induction false} WithinStepOrdered(cs: seq<Candidate>, dt: real)
    requires EdgesAscend(cs)
    ensures HitEdgesAscend(WithinStep(cs, dt))
  {
    if cs != [] {
      WithinStepOrdered(cs[1..], dt);
      var rest := WithinStep(cs[1..], dt);
      forall i | 0 <= i < |cs[1..]| ensures EdgeRank(cs[0].edge) < EdgeRank(cs[1..][i].edge) {
        assert cs[1..][i] == cs[i + 1];
      }
      WithinStepRanksAbove(EdgeRank(cs[0].edge), cs[1..], dt);
      if InWindow(cs[0].t, dt) {
        var r := WithinStep(cs, dt);
        forall i, j | 0 <= i < j < |r| ensures EdgeRank(r[i].edge) < EdgeRank(r[j].edge) {
          assert r[j] == rest[j - 1];
          if i > 0 {
            assert r[i] == rest[i - 1];
          }
        }
      }
    }
  }

  predicate SortedByTime(hs: seq<Hit>)
  {
    forall i, j :: 0 <= i < j < |hs| ==> hs[i].t <= hs[j].t
  }

  /** The index of the first hit with the least time. */
  function FirstEarliest(hs: seq<Hit>): (i: nat)
    requires hs != []
    ensures i < |hs|
    ensures forall j :: 0 <= j < |hs| ==> hs[i].t <= hs[j].t
    ensures forall j :: 0 <= j < i ==> hs[i].t < hs[j].t
  {
    if |hs| == 1 then 0
    else
      var k := 1 + FirstEarliest(hs[1..]);
      if hs[0].t <= hs[k].t then 0 else k
  }

  /** One step of a stable insertion sort: h goes before the first element
      that is not earlier than it. */
  function InsertByTime(h: Hit, hs: seq<Hit>): (r: seq<Hit>)
    ensures |r| == |hs| + 1
  {
    if hs == [] || h.t <= hs[0].t then [h] + hs
    else [hs[0]] + InsertByTime(h, hs[1..])
  }

  /** Inserting adds exactly h. */
  lemma {:induction false} InsertByTimeAdds(h: Hit, hs: seq<Hit>)
    ensures multiset(InsertByTime(h, hs)) == multiset(hs) + multiset{h}
  {
    if hs != [] && h.t > hs[0].t {
      InsertByTimeAdds(h, hs[1..]);
      assert hs == [hs[0]] + hs[1..];
    }
  }

  /** Every hit of hs is at time b or later. */
  predicate NotBefore(b: real, hs: seq<Hit>)
  {
    forall i :: 0 <= i < |hs| ==> b <= hs[i].t
  }

  /** Inserting a hit at time b or later keeps a lower bound b. */
  lemma {:induction false} InsertByTimeNotBefore(b: real, h: Hit, hs: seq<Hit>)
    requires b <= h.t && NotBefore(b, hs)
    ensures NotBefore(b, InsertByTime(h, hs))
  {
    if hs != [] && h.t > hs[0].t {
      InsertByTimeNotBefore(b, h, hs[1..]);
      var r := InsertByTime(h, hs);
      forall i | 0 <= i < |r| ensures b <= r[i].t {
        if i > 0 {
          assert r[i] == InsertByTime(h, hs[1..])[i - 1];
        }
      }
    }
  }

  /** Inserting into a time-ordered list keeps it ordered, and puts h first
      unless the old head is strictly earlier. */
  lemma {:induction false} InsertByTimeSorted(h: Hit, hs: seq<Hit>)
    requires SortedByTime(hs)
    ensures SortedByTime(InsertByTime(h, hs))
    ensures InsertByTime(h, hs)[0] == if hs == [] || h.t <= hs[0].t then h else hs[0]
  {
    if hs != [] && h.t > hs[0].t {
      var tail := InsertByTime(h, hs[1..]);
      InsertByTimeSorted(h, hs[1..]);
      InsertByTimeNotBefore(hs[0].t, h, hs[1..]);
      var r := [hs[0]] + tail;
      forall i, j | 0 <= i < j < |r| ensures r[i].t <= r[j].t {
        assert r[j] == tail[j - 1];
        if i > 0 {
          assert r[i] == tail[i - 1];
        }
      }
    }
  }

  /** `.sort((a, b) => a.t - b.t)` (BouncingBall.js:88): an insertion sort
      that keeps list order among equal times, as JavaScript's stable sort
      does. */
  function SortByTime(hs: seq<Hit>): (r: seq<Hit>)
    ensures |r| == |hs|
  {
    if hs == [] then [] else InsertByTime(hs[0], SortByTime(hs[1..]))
  }

  /** The sort is a permutation. */
  lemma {:induction false} SortByTimePermutes(hs: seq<Hit>)
    ensures multiset(SortByTime(hs)) == multiset(hs)
  {
    if hs != [] {
      SortByTimePermutes(hs[1..]);
      InsertByTimeAdds(hs[0], SortByTime(hs[1..]));
      assert hs == [hs[0]] + hs[1..];
    }
  }

  /** The sort yields a time-ordered list whose head is the first of the
      earliest hits. */
  lemma {:induction false} SortByTimeSorted(hs: seq<Hit>)
    ensures SortedByTime(SortByTime(hs))
    ensures hs != [] ==> SortByTime(hs)[0] == hs[FirstEarliest(hs)]
  {
    if hs != [] {
      var sorted := SortByTime(hs[1..]);
      SortByTimeSorted(hs[1..]);
      InsertByTimeSorted(hs[0], sorted);
      if |hs| > 1 {
        var k := 1 + FirstEarliest(hs[1..]);
        assert sorted[0] == hs[k];
      }
    }
  }

  /** `intersects[0]` after filtering and sorting, or None when the list is empty. */
  function FirstHit(w: World, data: Ball, dt: real): Option<Hit>
  {
    var hs := SortByTime(WithinStep(Candidates(w, data), dt));
    if hs == [] then None else Some(hs[0])
  }

  /** In a list ordered by edge, the first earliest hit beats every other
      hit: strictly earlier, or at the same time and no later in edge order. */
  lemma FirstEarliestBeats(hs: seq<Hit>)
    requires hs != [] && HitEdgesAscend(hs)
    ensures forall j :: 0 <= j < |hs| ==>
      var h := hs[FirstEarliest(hs)];
      h.t < hs[j].t || (h.t == hs[j].t && EdgeRank(h.edge) <= EdgeRank(hs[j].edge))
  {
  }

  /** The collision simulate acts on: None exactly when no crossing time lies
      in (0, dt]; otherwise one of the candidates, in (0, dt], no later than
      any other candidate in the window and, among those at the same time,
      the first in the order left, right, top, bottom. */
  lemma FirstHitIsEarliest(w: World, data: Ball, dt: real)
    ensures FirstHit(w, data, dt).None? <==>
      forall i :: 0 <= i < 4 ==> !InWindow(Candidates(w, data)[i].t, dt)
    ensures FirstHit(w, data, dt).Some? ==>
      var h := FirstHit(w, data, dt).value;
      0.0 < h.t <= dt &&
      Candidate(Some(h.t), h.edge) in Candidates(w, data) &&
      forall i :: 0 <= i < 4 && InWindow(Candidates(w, data)[i].t, dt) ==>
        var c := Candidates(w, data)[i];
        h.t < c.t.value || (h.t == c.t.value && EdgeRank(h.edge) <= EdgeRank(c.edge))
  {
    var cs := Candidates(w, data);
    var hs := WithinStep(cs, dt);
    assert EdgesAscend(cs);
    WithinStepSound(cs, dt);
    WithinStepComplete(cs, dt);
    WithinStepOrdered(cs, dt);
    SortByTimeSorted(hs);
    if hs != [] {
      var h := hs[FirstEarliest(hs)];
      assert h in hs;
      FirstEarliestBeats(hs);
      forall i | 0 <= i < 4 && InWindow(cs[i].t, dt)
        ensures h.t < cs[i].t.value || (h.t == cs[i].t.value && EdgeRank(h.edge) <= EdgeRank(cs[i].edge))
      {
        var g := Hit(cs[i].t.value, cs[i].edge);
        assert g in hs;
      }
    }
  }

  // ---------------------------------------------------------------------------
  // Collision response
  // ---------------------------------------------------------------------------

  /** The magnitude of a speed. */
  function Magnitude(v: real): real
  {
    if v < 0.0 then -v else v
  }

  /** `handleWallCollision(data, t)` (BouncingBall.js:56-60): fly to the hit,
      then reverse vx and scale it by the bounce factor. */
  function HandleWallCollision(data: Ball, t: real): (r: Ball)
    ensures var hit := SimulateWithoutCollisions(data, t);
      r.x == hit.x && r.y == hit.y && r.vy == hit.vy
    ensures r.vx == -BounceFactor * data.vx
    ensures Magnitude(r.vx) == BounceFactor * Magnitude(data.vx)
    ensures data.vx != 0.0 ==> Magnitude(r.vx) < Magnitude(data.vx)
  {
    var dataAtHit := SimulateWithoutCollisions(data, t);
    dataAtHit.(vx := dataAtHit.vx * -BounceFactor)
  }

  /** `handleFloorCeilingCollision(data, t)` (BouncingBall.js:61-68): fly to
      the hit, reverse vy and scale it by the bounce factor, and set it to
      exactly 0 when it rounds to 0 at 3 decimals, that is when the damped
      speed is below 0.0005. */
  function HandleFloorCeilingCollision(data: Ball, t: real): (r: Ball)
    ensures var hit := SimulateWithoutCollisions(data, t);
      r.x == hit.x && r.y == hit.y && r.vx == hit.vx &&
      r.vy == (if -0.0005 < BounceFactor * hit.vy < 0.0005 then 0.0 else -BounceFactor * hit.vy)
    ensures var hit := SimulateWithoutCollisions(data, t);
      Magnitude(r.vy) <= BounceFactor * Magnitude(hit.vy)
  {
    var dataAtHit := SimulateWithoutCollisions(data, t);
    var vy := dataAtHit.vy * -BounceFactor;
    ReducePrecisionZero(vy);
    if ReducePrecision(vy, 3) == 0.0 then dataAtHit.(vy := 0.0) else dataAtHit.(vy := vy)
  }

  /** `intersect.handleCollision(data, intersect.t)`: walls for the left and
      right edges, floor/ceiling for the top and bottom ones. */
  function HandleCollision(data: Ball, hit: Hit): Ball
  {
    match hit.edge
    case Left => HandleWallCollision(data, hit.t)
    case Right => HandleWallCollision(data, hit.t)
    case Top => HandleFloorCeilingCollision(data, hit.t)
    case Bottom => HandleFloorCeilingCollision(data, hit.t)
  }

  /** Whatever edge is hit, the ball is at its free-flight position at the
      hit; a wall hit keeps vy and reverses and damps vx, a top or bottom hit
      keeps vx and never grows the vertical speed. */
  lemma HandleCollisionResponse(data: Ball, hit: Hit)
    ensures var r, at := HandleCollision(data, hit), SimulateWithoutCollisions(data, hit.t);
      r.x == at.x && r.y == at.y &&
      ((hit.edge == Left || hit.edge == Right) ==> r.vy == at.vy && r.vx == -BounceFactor * at.vx) &&
      ((hit.edge == Top || hit.edge == Bottom) ==> r.vx == at.vx && Magnitude(r.vy) <= BounceFactor * Magnitude(at.vy))
  {
  }

  // ---------------------------------------------------------------------------
  // The step driver
  // ---------------------------------------------------------------------------

  /** `simulate(data, dt)` (BouncingBall.js:71-99). The source recurses with no
      bound; `fuel` is the number of collisions the model lets one call
      resolve, and None means it ran out before dt was used up. */
  function Simulate(w: World, data: Ball, dt: real, fuel: nat): Option<Ball>
    decreases fuel
  {
    if dt == 0.0 then Some(data)
    else
      match FirstHit(w, data, dt)
      case None => Some(SimulateWithoutCollisions(data, dt))
      case Some(hit) =>
        if fuel == 0 then None
        else Simulate(w, HandleCollision(data, hit), dt - hit.t, fuel - 1)
  }

  /** A zero step returns the ball unchanged (BouncingBall.js:72-74). */
  lemma SimulateZero(w: World, data: Ball, fuel: nat)
    ensures Simulate(w, data, 0.0, fuel) == Some(data)
  {
  }

  /** With no crossing time in (0, dt] the step is plain free flight. */
  lemma SimulateWithoutHit(w: World, data: Ball, dt: real, fuel: nat)
    requires forall i :: 0 <= i < 4 ==> !InWindow(Candidates(w, data)[i].t, dt)
    ensures Simulate(w, data, dt, fuel) == Some(SimulateWithoutCollisions(data, dt))
  {
    FirstHitIsEarliest(w, data, dt);
  }

  /** With a hit, the step bounces at the hit time and carries on from the
      bounced state with the time that is left, which is smaller than dt but
      not negative. */
  lemma SimulateAfterHit(w: World, data: Ball, dt: real, fuel: nat)
    requires dt != 0.0 && fuel > 0
    requires FirstHit(w, data, dt).Some?
    ensures var h := FirstHit(w, data, dt).value;
      0.0 <= dt - h.t < dt &&
      Simulate(w, data, dt, fuel) == Simulate(w, HandleCollision(data, h), dt - h.t, fuel - 1)
  {
    FirstHitIsEarliest(w, data, dt);
  }

  /** More fuel never changes a result that was reached: the bound only
      decides whether the step finishes. */
  lemma {:induction false} SimulateFuelMonotone(w: World, data: Ball, dt: real, fuel: nat, more: nat)
    requires Simulate(w, data, dt, fuel).Some?
    requires fuel <= more
    ensures Simulate(w, data, dt, more) == Simulate(w, data, dt, fuel)
    decreases fuel
  {
    if dt != 0.0 && FirstHit(w, data, dt).Some? {
      var h := FirstHit(w, data, dt).value;
      var next := HandleCollision(data, h);
      assert fuel > 0;
      SimulateFuelMonotone(w, next, dt - h.t, fuel - 1, more - 1);
    }
  }

  /** A ball thrown upwards whose path passes y = BallR within the step: the
      top edge's quadratic has roots 0.1 and 0.2, and simulate only looks at
      the larger, 0.2, which lies beyond the step of 0.13. So the upward
      crossing at 0.1 is never seen and the step ends with the centre above
      the top limit, outside the box. */
  lemma TopCrossingMissed(sqrt: real -> real)
    requires IsSqrt(sqrt)
    ensures var b := Ball(100.0, 70.0, 0.0, -450.0);
      SimulateWithoutCollisions(b, 0.1).y == BallR &&
      Simulate(World(200.0, 200.0, sqrt), b, TimeStep, 0) == Some(Ball(100.0, 36.85, 0.0, -60.0)) &&
      36.85 < BallR
  {
    var w := World(200.0, 200.0, sqrt);
    var b := Ball(100.0, 70.0, 0.0, -450.0);
    var top := sqrt(22500.0);
    assert top >= 0.0 && top * top == 22500.0;
    SquareRootsOfSquare(150.0, top);
    assert GetIntersectionTimeY(w, b, BallR) == Some(0.2);
    var bottom := sqrt(742500.0);
    assert bottom >= 0.0;
    assert GetIntersectionTimeY(w, b, 160.0) == Some((450.0 + bottom) / 3000.0);
    var cs := Candidates(w, b);
    assert !InWindow(cs[0].t, TimeStep) && !InWindow(cs[1].t, TimeStep);
    assert !InWindow(cs[2].t, TimeStep) && !InWindow(cs[3].t, TimeStep);
    assert WithinStep(cs[3..], TimeStep) == [];
    assert cs[2..][1..] == cs[3..];
    assert WithinStep(cs[2..], TimeStep) == [];
    assert cs[1..][1..] == cs[2..];
    assert WithinStep(cs[1..], TimeStep) == [];
  }

  // ---------------------------------------------------------------------------
  // Samplers
  // ---------------------------------------------------------------------------

  /** One `data = simulate(data, dt)`; a step that ran out of fuel stays out. */
  function Step(w: World, s: Option<Ball>, dt: real, fuel: nat): Option<Ball>
  {
    match s
    case None => None
    case Some(b) => Simulate(w, b, dt, fuel)
  }

  /** n successive steps of dt from data. */
  function Iterate(w: World, data: Ball, n: nat, dt: real, fuel: nat): Option<Ball>
  {
    if n == 0 then Some(data) else Step(w, Iterate(w, data, n - 1, dt, fuel), dt, fuel)
  }

  /** Stepping a + b times is stepping a times, then b times from there. */
  lemma {:induction false} IterateComposes(w: World, data: Ball, a: nat, b: nat, dt: real, fuel: nat)
    ensures Iterate(w, data, a + b, dt, fuel) ==
      match Iterate(w, data, a, dt, fuel)
      case None => None
      case Some(mid) => Iterate(w, mid, b, dt, fuel)
  {
    if b > 0 {
      IterateComposes(w, data, a, b - 1, dt, fuel);
    }
  }

  /** More fuel never changes a sequence of steps that finished. */
  lemma {:induction false} IterateFuelMonotone(w: World, data: Ball, n: nat, dt: real, fuel: nat, more: nat)
    requires Iterate(w, data, n, dt, fuel).Some?
    requires fuel <= more
    ensures Iterate(w, data, n, dt, more) == Iterate(w, data, n, dt, fuel)
  {
    if n > 0 {
      var prev := Iterate(w, data, n - 1, dt, fuel);
      assert prev.Some?;
      IterateFuelMonotone(w, data, n - 1, dt, fuel, more);
      SimulateFuelMonotone(w, prev.value, dt, fuel, more);
    }
  }

  /** How many times `for (const i of range(T / timeStep))` runs its body. */
  function WholeSteps(animationTime: real): nat
  {
    var (s, e, step) := Util.RangeArgs(animationTime / TimeStep, None, None);
    Util.RangeLength(s, e, step)
  }

  /** JavaScript's truncation of a quotient toward zero. */
  function Trunc(q: real): int
  {
    if q >= 0.0 then q.Floor else -((-q).Floor)
  }

  /** JavaScript's `a % b` on numbers: the remainder of the quotient truncated
      toward zero, with the sign of a. */
  function JsRemainder(a: real, b: real): real
    requires b != 0.0
  {
    a - b * (Trunc(a / b) as real)
  }

  /** For a >= 0 and b > 0, a % b lies in [0, b) and a is a whole number of b
      plus a % b. */
  lemma JsRemainderRange(a: real, b: real)
    requires a >= 0.0 && b > 0.0
    ensures 0.0 <= JsRemainder(a, b) < b
    ensures a == b * ((a / b).Floor as real) + JsRemainder(a, b)
  {
    var q := a / b;
    assert q >= 0.0;
    var k := q.Floor as real;
    assert Trunc(q) as real == k;
    assert b * q == a;
    FloorMultiple(a, b, q, k);
  }

  /** a lies in [b*k, b*k + b) when a == b*q and k <= q < k + 1. */
  lemma FloorMultiple(a: real, b: real, q: real, k: real)
    requires b > 0.0 && b * q == a && k <= q < k + 1.0
    ensures 0.0 <= a - b * k < b
  {
    var d := k + 1.0 - q;
    assert b * d > 0.0;
    assert b * d == b * k + b - b * q;
    assert b * (q - k) >= 0.0;
    SumBelow(b * d, b * k, b * q, a, b);
  }

  lemma SumBelow(x: real, y: real, z: real, a: real, b: real)
    requires x > 0.0 && x == y + b - z && z == a
    ensures a - y < b
  {
  }

  /** `simulateUntilTime(data, animationTime)` (BouncingBall.js:102-107): as
      many whole steps as range(T / timeStep) yields, then one step of
      T % timeStep. */
  method SimulateUntilTime(w: World, data: Ball, animationTime: real, fuel: nat) returns (r: Option<Ball>)
    ensures r == Step(w, Iterate(w, data, WholeSteps(animationTime), TimeStep, fuel),
                      JsRemainder(animationTime, TimeStep), fuel)
  {
    var steps := Util.Range(animationTime / TimeStep, None, None);
    var cur := Some(data);
    for i := 0 to |steps|
      invariant cur == Iterate(w, data, i, TimeStep, fuel)
    {
      cur := Step(w, cur, TimeStep, fuel);
    }
    r := Step(w, cur, JsRemainder(animationTime, TimeStep), fuel);
  }

  /** `simulateUntilTime(data, 0)` is the start state. */
  lemma UntilTimeZero(w: World, data: Ball, fuel: nat)
    ensures Step(w, Iterate(w, data, WholeSteps(0.0), TimeStep, fuel), JsRemainder(0.0, TimeStep), fuel) == Some(data)
  {
    assert WholeSteps(0.0) == 0;
    assert JsRemainder(0.0, TimeStep) == 0.0;
  }

  /** The total of the step lengths simulateUntilTime hands to simulate. */
  function UntilTimeSpan(animationTime: real): real
  {
    (WholeSteps(animationTime) as real) * TimeStep + JsRemainder(animationTime, TimeStep)
  }

  lemma CeilOfFraction(q: real)
    ensures q.Floor as real == q ==> Util.Ceil(q) == q.Floor
    ensures q.Floor as real != q ==> Util.Ceil(q) == q.Floor + 1
  {
    Util.CeilBounds(q);
  }

  /** For T >= 0 range(T / timeStep) runs ceil(T / timeStep) times, so the
      steps add up to T only when T is a whole number of time steps; for any
      other T they add up to T + timeStep: a full step too many. */
  lemma UntilTimeOvershoots(animationTime: real)
    requires animationTime >= 0.0
    ensures var q := animationTime / TimeStep;
      q.Floor as real == q ==> UntilTimeSpan(animationTime) == animationTime
    ensures var q := animationTime / TimeStep;
      q.Floor as real != q ==> UntilTimeSpan(animationTime) == animationTime + TimeStep
  {
    var q := animationTime / TimeStep;
    Util.SingleArgumentRange(q);
    CeilOfFraction(q);
    JsRemainderRange(animationTime, TimeStep);
  }

  /** At T = 0.2 the steps are 0.13, 0.13 and 0.07: 0.33 seconds in all. */
  lemma UntilTimeExample()
    ensures WholeSteps(0.2) == 2 && JsRemainder(0.2, TimeStep) == 0.07
    ensures UntilTimeSpan(0.2) == 0.33
  {
    var q := 0.2 / TimeStep;
    assert q.Floor == 1;
    UntilTimeOvershoots(0.2);
  }

  /** How many whole steps `range(Math.floor(T / timeStep))` yields. */
  function FloorSteps(animationTime: real): nat
  {
    var (s, e, step) := Util.RangeArgs((animationTime / TimeStep).Floor as real, None, None);
    Util.RangeLength(s, e, step)
  }

  /** simulateUntilTime with the whole-step count rounded down, as the
      remainder step that follows the loop presumes. */
  method SimulateUntilTimeFloor(w: World, data: Ball, animationTime: real, fuel: nat) returns (r: Option<Ball>)
    ensures r == Step(w, Iterate(w, data, FloorSteps(animationTime), TimeStep, fuel),
                      JsRemainder(animationTime, TimeStep), fuel)
  {
    var steps := Util.Range((animationTime / TimeStep).Floor as real, None, None);
    var cur := Some(data);
    for i := 0 to |steps|
      invariant cur == Iterate(w, data, i, TimeStep, fuel)
    {
      cur := Step(w, cur, TimeStep, fuel);
    }
    r := Step(w, cur, JsRemainder(animationTime, TimeStep), fuel);
  }

  /** With the count rounded down the steps add up to exactly T, and the
      last one is shorter than a time step. */
  lemma UntilTimeFloorExact(animationTime: real)
    requires animationTime >= 0.0
    ensures (FloorSteps(animationTime) as real) * TimeStep + JsRemainder(animationTime, TimeStep) == animationTime
    ensures 0.0 <= JsRemainder(animationTime, TimeStep) < TimeStep
  {
    var k := (animationTime / TimeStep).Floor;
    Util.IntegerRangeLength(k);
    JsRemainderRange(animationTime, TimeStep);
  }

  /** states[k] is the state after k steps of TimeStep, for every k. */
  ghost predicate IteratesFrom(w: World, data: Ball, fuel: nat, states: seq<Option<Ball>>)
  {
    forall k :: 0 <= k < |states| ==> states[k] == Iterate(w, data, k, TimeStep, fuel)
  }

  lemma AppendIterate(w: World, data: Ball, fuel: nat, states: seq<Option<Ball>>)
    requires IteratesFrom(w, data, fuel, states)
    ensures IteratesFrom(w, data, fuel, states + [Iterate(w, data, |states|, TimeStep, fuel)])
  {
    var next := states + [Iterate(w, data, |states|, TimeStep, fuel)];
    forall k | 0 <= k < |next| ensures next[k] == Iterate(w, data, k, TimeStep, fuel) {
      if k < |states| {
        assert next[k] == states[k];
      }
    }
  }

  /** `generateStates(data)` (BouncingBall.js:108-115): the start state and
      then one more state per whole time step of the simulation period. */
  method GenerateStates(w: World, data: Ball, fuel: nat) returns (states: seq<Option<Ball>>)
    ensures |states| == WholeSteps(SimulationPeriod) + 1
    ensures forall k :: 0 <= k < |states| ==> states[k] == Iterate(w, data, k, TimeStep, fuel)
  {
    states := [Some(data)];
    var cur := Some(data);
    var steps := Util.Range(SimulationPeriod / TimeStep, None, None);
    for i := 0 to |steps|
      invariant |states| == i + 1
      invariant cur == Iterate(w, data, i, TimeStep, fuel)
      invariant IteratesFrom(w, data, fuel, states)
    {
      cur := Step(w, cur, TimeStep, fuel);
      AppendIterate(w, data, fuel, states);
      states := states + [cur];
    }
  }

  /** The period of 3.5 s is sampled 28 times, at 0, 0.13, ..., 3.51: the last
      sample lies just past the end of the period. */
  lemma StatesCoverPeriod()
    ensures WholeSteps(SimulationPeriod) == 27
    ensures 26.0 * TimeStep < SimulationPeriod <= 27.0 * TimeStep
  {
    var q := SimulationPeriod / TimeStep;
    Util.SingleArgumentRange(q);
    Util.CeilBounds(q);
  }
}
