/** cordic_trig_accelerator.py: the integer CORDIC loop, in 32-bit arithmetic with wrap-around. */
module Cordic {
  import opened Basics

  const TWO31 := 0x8000_0000
  const TWO32 := 0x1_0000_0000
  const PI_OVER_2 := 1073741824
  const CORDIC_GAIN_INV := 1304095400

  const ATAN_TABLE: seq<int> := [
    536870912, 316933406, 167414882, 85004756, 42667331, 21354465, 10679838,
    5340245, 2670163, 1335087, 667544, 333772, 166886, 83443,
    41722, 20861, 10430, 5215, 2608, 1304,
    652, 326, 163, 81, 41, 20,
    10, 5, 3, 1, 1, 0]

  function Atan(j: nat): int
    requires j < 32
  {
    ATAN_TABLE[j]
  }

  predicate IsInt32(v: int) { -TWO31 <= v < TWO31 }

  type int32 = v: int | IsInt32(v)

  /** np.int32(v): two's complement wrap-around. */
  function Wrap(v: int): (w: int32)
    ensures IsInt32(v) ==> w == v
    ensures (w - v) % TWO32 == 0
  {
    var m := v % TWO32;
    if m < TWO31 then m else m - TWO32
  }

  function Negate(v: int): int32 { Wrap(-v) }

  /** v >> j on signed integers: the floor of v / 2^j. */
  function Shift(v: int, j: nat): int { v / Pow2(j) }

  datatype Mode = Vectoring | Rotation
  datatype Point = Point(x: int32, y: int32, z: int32)

  /** +1 turns the vector clockwise, towards smaller y. */
  function Direction(mode: Mode, p: Point): int {
    match mode
    case Vectoring => if p.y >= 0 then 1 else -1
    case Rotation => if p.z >= 0 then -1 else 1
  }

  function Step(mode: Mode, j: nat, p: Point): Point
    requires j < 32
  {
    var s := Direction(mode, p);
    var dx := if s == 1 then Wrap(Shift(p.y, j)) else Wrap(-Shift(p.y, j));
    var dy := if s == 1 then Wrap(-Shift(p.x, j)) else Wrap(Shift(p.x, j));
    Point(Wrap(p.x + dx), Wrap(p.y + dy), Wrap(p.z + s * Atan(j)))
  }

  /** The first n iterations. */
  function Iterate(mode: Mode, p: Point, n: nat): Point
    requires n <= 32
  {
    if n == 0 then p else Step(mode, n - 1, Iterate(mode, p, n - 1))
  }

  /** Into the half-plane (vectoring) or the quarter turns (rotation) where the loop converges. */
  function Prerotate(mode: Mode, p: Point): Point {
    match mode
    case Vectoring =>
      if p.x >= 0 then p
      else if p.y >= 0 then Point(p.y, Negate(p.x), Wrap(p.z + PI_OVER_2))
      else Point(Negate(p.y), p.x, Wrap(p.z - PI_OVER_2))
    case Rotation =>
      if p.z > PI_OVER_2 then Point(Negate(p.y), p.x, Wrap(p.z - PI_OVER_2))
      else if p.z < -PI_OVER_2 then Point(p.y, Negate(p.x), Wrap(p.z + PI_OVER_2))
      else p
  }

  function Compensate(v: int32): int32 { Wrap(Shift(v * CORDIC_GAIN_INV, 31)) }

  function Resolved(mode: Mode, p: Point, iterations: nat): Point
    requires iterations <= 32
  {
    if mode == Vectoring && p.x == 0 && p.y == 0 then Point(0, 0, 0)
    else
      var q := Iterate(mode, Prerotate(mode, p), iterations);
      Point(Compensate(q.x), if mode == Vectoring then 0 else Compensate(q.y), q.z)
  }

  // ---- rotation: the angle is used up ----

  function AngleLeft(j: nat): int
    requires j <= 32
    decreases 32 - j
  {
    if j == 32 then 0 else Atan(j) + AngleLeft(j + 1)
  }

  /** From entry j on, each entry is at most the sum of the later ones plus one. */
  predicate Convergent(j: nat)
    requires j <= 32
    decreases 32 - j
  {
    j == 32 || (Convergent(j + 1) && AngleLeft(j + 1) >= 0 && 0 <= Atan(j) <= AngleLeft(j + 1) + 1)
  }

  /** The sums of the tails, entry by entry from the last. */
  lemma TableConverges()
    ensures Convergent(0) && AngleLeft(0) == 1191606173 && AngleLeft(32) == 0
  {
    hide Convergent, AngleLeft;
    NothingLeft();
    Extend(31, 0); Extend(30, 0); Extend(29, 1); Extend(28, 2);
    Extend(27, 5); Extend(26, 10); Extend(25, 20); Extend(24, 40);
    Extend(23, 81); Extend(22, 162); Extend(21, 325); Extend(20, 651);
    Extend(19, 1303); Extend(18, 2607); Extend(17, 5215); Extend(16, 10430);
    Extend(15, 20860); Extend(14, 41721); Extend(13, 83443); Extend(12, 166886);
    Extend(11, 333772); Extend(10, 667544); Extend(9, 1335088); Extend(8, 2670175);
    Extend(7, 5340338); Extend(6, 10680583); Extend(5, 21360421); Extend(4, 42714886);
    Extend(3, 85382217); Extend(2, 170386973); Extend(1, 337801855); Extend(0, 654735261);
  }

  lemma NothingLeft()
    ensures Convergent(32) && AngleLeft(32) == 0
  {
  }

  lemma Extend(j: nat, left: int)
    requires j < 32 && Convergent(j + 1) && AngleLeft(j + 1) == left >= 0 && 0 <= Atan(j) <= left + 1
    ensures Convergent(j) && AngleLeft(j) == Atan(j) + left
  {
  }

  lemma {:induction false} ConvergentFrom(j: nat)
    requires j <= 32
    ensures Convergent(j) && 0 <= AngleLeft(j) <= AngleLeft(0)
  {
    TableConverges();
    if j > 0 { ConvergentFrom(j - 1); }
  }

  lemma PrerotatedAngle(p: Point)
    ensures -PI_OVER_2 <= Prerotate(Rotation, p).z <= PI_OVER_2
  {
  }

  lemma StepAngle(p: Point, j: nat, left: int)
    requires j < 32 && 0 <= Atan(j) <= left + 1 < TWO31 - Atan(j) && -left - 1 - Atan(j) <= p.z <= left + 1 + Atan(j)
    ensures -left - 1 <= Step(Rotation, j, p).z <= left + 1
  {
    hide Atan, Shift, Wrap;
  }

  /** After n iterations at most the unused part of the table, plus one, is left of the angle. */
  lemma {:induction false} RotationBound(p: Point, n: nat)
    requires n <= 32 && -AngleLeft(0) - 1 <= p.z <= AngleLeft(0) + 1
    ensures -AngleLeft(n) - 1 <= Iterate(Rotation, p, n).z <= AngleLeft(n) + 1
  {
    if n > 0 {
      hide Atan, Step;
      RotationBound(p, n - 1);
      ConvergentFrom(n - 1);
      TableConverges();
      StepAngle(Iterate(Rotation, p, n - 1), n - 1, AngleLeft(n));
    }
  }

  /** Every 32-bit phase is used up to within one unit, whatever happens to x and y. */
  lemma RotationConverges(p: Point)
    ensures -1 <= Resolved(Rotation, p, 32).z <= 1
  {
    hide Atan, Iterate;
    PrerotatedAngle(p);
    TableConverges();
    RotationBound(Prerotate(Rotation, p), 32);
  }

  // ---- the loop without wrap-around ----

  datatype Vector = Vector(x: int, y: int)

  function XY(p: Point): Vector { Vector(p.x, p.y) }

  function Turn(v: Vector, j: nat, s: int): Vector {
    Vector(v.x + s * Shift(v.y, j), v.y - s * Shift(v.x, j))
  }

  /** The first n iterations never wrap x or y. */
  predicate Unwrapped(mode: Mode, p: Point, n: nat)
    requires n <= 32
  {
    n == 0 || (Unwrapped(mode, p, n - 1)
               && var q := Iterate(mode, p, n - 1);
                  XY(Iterate(mode, p, n)) == Turn(XY(q), n - 1, Direction(mode, q)))
  }

  // ---- vectoring: y is used up ----

  function Magnitude(v: int): nat { if v >= 0 then v else -v }

  /** |y| <= x / 2^(k-1) + (k-1), after k iterations. */
  predicate Narrow(v: Vector, k: nat)
    requires k > 0
  {
    Magnitude(v.y) * Pow2(k - 1) <= v.x + (k - 1) * Pow2(k - 1)
  }

  lemma ShiftBounds(v: int, j: nat)
    ensures Shift(v, j) * Pow2(j) <= v < Shift(v, j) * Pow2(j) + Pow2(j)
  {
    DivisionBounds(v, Pow2(j));
  }

  lemma DivisionBounds(v: int, d: int)
    requires d > 0
    ensures v / d * d <= v < v / d * d + d
  {
  }

  lemma ShiftSign(v: int, j: nat)
    ensures v >= 0 ==> Shift(v, j) >= 0
    ensures v < 0 ==> Shift(v, j) < 0
  {
    ShiftBounds(v, j);
    var q, p := Shift(v, j), Pow2(j);
    if q < 0 { NegativeTimes(q, p); } else { NonNegativeTimes(q, p); }
  }

  lemma NegativeTimes(q: int, p: int)
    requires q < 0 && p >= 1
    ensures q * p + p <= 0
  {
  }

  lemma NonNegativeTimes(q: int, p: int)
    requires q >= 0 && p >= 1
    ensures q * p >= 0
  {
  }

  function Towards(v: Vector): int { if v.y >= 0 then 1 else -1 }

  /** One exact vectoring iteration: x does not decrease, and the angle bound halves. */
  lemma VectoringTurn(v: Vector, k: nat)
    requires v.x >= 0 && (k > 0 ==> Narrow(v, k))
    ensures Turn(v, k, Towards(v)).x >= v.x && Narrow(Turn(v, k, Towards(v)), k + 1)
  {
    hide Shift;
    ShiftSign(v.x, k); ShiftSign(v.y, k); ShiftBounds(v.x, k);
    var w, b := Turn(v, k, Towards(v)), Shift(v.x, k);
    assert w.x == v.x + Towards(v) * Shift(v.y, k) >= v.x;
    assert Magnitude(w.y) == Magnitude(Magnitude(v.y) - b);
    if k == 0 {
      FirstTurn(v);
    } else {
      NarrowStep(Magnitude(v.y), b, v.x, w.x, Magnitude(w.y), Pow2(k - 1), k);
    }
  }

  lemma FirstTurn(v: Vector)
    requires v.x >= 0
    ensures Narrow(Turn(v, 0, Towards(v)), 1)
  {
    assert Shift(v.x, 0) == v.x && Shift(v.y, 0) == v.y;
  }

  lemma NarrowStep(y: nat, b: nat, x: nat, x': nat, y': nat, p: nat, k: nat)
    requires k > 0 && p >= 1 && x' >= x && y * p <= x + (k - 1) * p && b * (2 * p) <= x < b * (2 * p) + 2 * p
    requires y' == Magnitude(y - b)
    ensures y' * (2 * p) <= x' + k * (2 * p)
  {
    if y >= b {
      assert y' * (2 * p) == 2 * (y * p) - b * (2 * p);
      assert (k - 1) * p == k * p - p;
    } else {
      assert y' * (2 * p) <= b * (2 * p);
      assert k * (2 * p) >= 0;
    }
  }

  /** As long as nothing wraps, x stays non-negative and grows, and |y| <= x / 2^(n-1) + n - 1. */
  lemma {:induction false} VectoringNarrows(p: Point, n: nat)
    requires n <= 32 && p.x >= 0 && Unwrapped(Vectoring, p, n)
    ensures Iterate(Vectoring, p, n).x >= 0
    ensures n > 0 ==> Iterate(Vectoring, p, n).x >= Iterate(Vectoring, p, n - 1).x && Narrow(XY(Iterate(Vectoring, p, n)), n)
  {
    if n > 0 {
      VectoringNarrows(p, n - 1);
      hide Step, Narrow, Turn;
      VectoringTurn(XY(Iterate(Vectoring, p, n - 1)), n - 1);
    }
  }

  lemma PowerTable()
    ensures Pow2(31) == TWO31 && Pow2(0) == 1
  {
    assert Pow2(8) == 0x100 && Pow2(16) == 0x1_0000 && Pow2(24) == 0x100_0000;
  }

  /** After 32 iterations the y the source discards is at most 31 units. */
  lemma VectoringConverges(p: Point)
    requires Prerotate(Vectoring, p).x >= 0 && Unwrapped(Vectoring, Prerotate(Vectoring, p), 32)
    ensures var q := Iterate(Vectoring, Prerotate(Vectoring, p), 32); q.x >= 0 && Magnitude(q.y) <= 31
  {
    hide Iterate, Unwrapped, Prerotate, Pow2;
    var q := Iterate(Vectoring, Prerotate(Vectoring, p), 32);
    VectoringNarrows(Prerotate(Vectoring, p), 32);
    PowerTable();
    assert Magnitude(q.y) * TWO31 <= q.x + 31 * TWO31;
  }

  // ---- no overflow at safe amplitudes ----

  function Energy(v: Vector): nat
  {
    Squares(v.x, v.y);
    v.x * v.x + v.y * v.y
  }

  lemma Squares(x: int, y: int)
    ensures x * x >= 0 && y * y >= 0
  {
  }

  /** Rounding adds at most this much energy in one iteration. */
  const SLACK := 0x8_0000_0000

  function Pow4(j: nat): (p: int)
    ensures p >= 1
  {
    if j == 0 then 1 else 4 * Pow4(j - 1)
  }

  lemma {:induction false} FourIsTwoTwice(j: nat)
    ensures Pow4(j) == Pow2(j) * Pow2(j)
  {
    if j > 0 {
      FourIsTwoTwice(j - 1);
      var p := Pow2(j - 1);
      assert (2 * p) * (2 * p) == 4 * (p * p);
    }
  }

  lemma {:induction false} Pow2Bound(j: nat)
    requires j < 32
    ensures Pow2(j) <= TWO31
    decreases 32 - j
  {
    if j < 31 { Pow2Bound(j + 1); } else { PowerTable(); }
  }

  /** E' = E + 2s (r_x a - r_y b) + a^2 + b^2, with a, b the shifted coordinates and r the
      remainders. */
  lemma TurnEnergy(x: int, y: int, a: int, b: int, p: int, s: int)
    requires s == 1 || s == -1
    ensures (x + s * a) * (x + s * a) + (y - s * b) * (y - s * b)
         == x * x + y * y + 2 * s * ((x - b * p) * a - (y - a * p) * b) + a * a + b * b
  {
    assert (x - b * p) * a - (y - a * p) * b == x * a - y * b;
  }

  /** The square of a shifted coordinate. */
  lemma ShiftedSquare(y: int, a: int, p: int)
    requires p >= 1 && a * p <= y < a * p + p && -TWO31 <= y <= TWO31
    ensures a * a * (p * p) <= y * y + TWO32 * (p * p) + p * p
  {
    var w, m := a * p, Magnitude(y);
    SquareOfProduct(a, p);
    SquareOrder(w, m + p);
    SquareOfSum(m, p);
    assert m * m == y * y;
    OneTimes(m, p);
  }

  lemma SquareOfProduct(a: int, p: int)
    ensures (a * p) * (a * p) == a * a * (p * p)
  {
  }

  lemma SquareOrder(w: int, u: int)
    requires -u <= w <= u
    ensures w * w <= u * u
  {
    assert u * u - w * w == (u - w) * (u + w);
  }

  lemma SquareOfSum(m: int, p: int)
    ensures (m + p) * (m + p) == m * m + 2 * (m * p) + p * p
  {
  }

  lemma OneTimes(m: int, p: int)
    requires 0 <= m <= TWO31 && p >= 1
    ensures 2 * (m * p) <= TWO32 * (p * p)
  {
    assert m * p <= TWO31 * p;
    assert p <= p * p;
  }

  /** A remainder times a shifted coordinate. */
  lemma Cross(r: int, y: int, a: int, p: int)
    requires 1 <= p <= TWO31 && 0 <= r < p && a * p <= y < a * p + p && -TWO31 <= y <= TWO31
    ensures -TWO32 <= r * a <= TWO32
  {
    if a >= 0 {
      assert 0 <= r * a <= p * a;
    } else {
      assert p * a <= r * a <= 0;
    }
  }

  lemma QuotientBound(k: int, d: int, e: int, m: int)
    requires d >= 1 && k * d <= e + m * d
    ensures k <= e / d + m
  {
    DivisionBounds(e, d);
    TimesOrder(k, e / d + m + 1, d);
    assert (e / d + m + 1) * d == e / d * d + m * d + d;
  }

  lemma TimesOrder(k: int, l: int, d: int)
    requires d >= 1
    ensures k >= l ==> k * d >= l * d
  {
  }

  /** One iteration multiplies the energy by at most 1 + 4^-j, up to rounding. */
  lemma EnergyStep(v: Vector, j: nat, s: int)
    requires j < 32 && (s == 1 || s == -1)
    requires -TWO31 <= v.x <= TWO31 && -TWO31 <= v.y <= TWO31
    ensures Energy(Turn(v, j, s)) <= Energy(v) + Energy(v) / Pow4(j) + SLACK
  {
    hide Shift, Pow2, Pow4;
    var p, a, b := Pow2(j), Shift(v.y, j), Shift(v.x, j);
    ShiftBounds(v.x, j); ShiftBounds(v.y, j); Pow2Bound(j); FourIsTwoTwice(j);
    TurnEnergy(v.x, v.y, a, b, p, s);
    Cross(v.x - b * p, v.y, a, p); Cross(v.y - a * p, v.x, b, p);
    ShiftedSquare(v.y, a, p); ShiftedSquare(v.x, b, p);
    var d := p * p;
    Distributes(a * a, b * b, d);
    QuotientBound(a * a + b * b, d, Energy(v), 2 * TWO32 + 2);
  }

  lemma Distributes(a: int, b: int, d: int)
    ensures (a + b) * d == a * d + b * d
  {
  }

  // ---- the bound, iteration by iteration ----

  /** 0.36 * 2^62: magnitudes up to 0.6 of full scale. */
  const SAFE_ENERGY := 1660206966633859645

  /** e / 4^j. */
  function Share(e: nat, j: nat): nat {
    DivisionOrder(0, e, Pow4(j));
    e / Pow4(j)
  }

  lemma DivisionOrder(a: int, b: int, d: int)
    requires a <= b && d >= 1
    ensures a / d <= b / d
  {
    DivisionBounds(a, d);
    DivisionBounds(b, d);
    TimesOrder(a / d, b / d + 1, d);
    assert (b / d + 1) * d == b / d * d + d;
  }

  function Bound(j: nat): nat {
    if j == 0 then SAFE_ENERGY else Bound(j - 1) + Share(Bound(j - 1), j - 1) + SLACK
  }

  lemma GrowBound(j: nat, b: nat, q: nat, b': nat)
    requires Bound(j) <= b && Pow4(j) == q && b + b / q + SLACK <= b'
    ensures Bound(j + 1) <= b'
  {
    DivisionOrder(Bound(j), b, q);
  }

  const STEP := 4432406245376

  lemma EarlyBound()
    ensures Bound(10) <= 4502176008229671145 && Pow4(10) == 1048576
  {
    hide Bound;
    PowersOfFour();
    NoBound();
    GrowBound(0, 1660206966633859645, 1, 3320413967627457658);
    GrowBound(1, 3320413967627457658, 4, 4150517493894060440);
    GrowBound(2, 4150517493894060440, 16, 4409924871622177585);
    GrowBound(3, 4409924871622177585, 64, 4478829982101012477);
    GrowBound(4, 4478829982101012477, 256, 4496325446078332924);
    GrowBound(5, 4496325446078332924, 1024, 4500716423256507163);
    GrowBound(6, 4500716423256507163, 4096, 4501815265336767139);
    GrowBound(7, 4501815265336767139, 16384, 4502090068694633971);
    GrowBound(8, 4502090068694633971, 65536, 4502158799497070926);
    GrowBound(9, 4502158799497070926, 262144, 4502176008229671145);
  }

  lemma NoBound()
    ensures Bound(0) == SAFE_ENERGY
  {
  }

  lemma PowersOfFour()
    ensures Pow4(0) == 1 && Pow4(1) == 4 && Pow4(2) == 16 && Pow4(3) == 64 && Pow4(4) == 256 && Pow4(5) == 1024
    ensures Pow4(6) == 4096 && Pow4(7) == 16384 && Pow4(8) == 65536 && Pow4(9) == 262144 && Pow4(10) == 1048576
  {
    assert Pow4(4) == 256;
    assert Pow4(8) == 65536;
  }

  const FULL_ENERGY := 4611686014132420609

  /** From the tenth iteration on the growth is negligible. */
  lemma {:induction false} LateBound(j: nat)
    requires 10 <= j <= 32
    ensures Pow4(j) >= 1048576 && Bound(j) <= 4502176008229671145 + (j - 10) * STEP < FULL_ENERGY
  {
    if j == 10 {
      EarlyBound();
    } else {
      LateBound(j - 1);
      ShareBound(Bound(j - 1), j - 1);
    }
  }

  lemma ShareBound(e: nat, j: nat)
    requires e <= FULL_ENERGY && Pow4(j) >= 1048576
    ensures Share(e, j) + SLACK <= STEP
  {
    var q := Share(e, j);
    DivisionBounds(e, Pow4(j));
    TimesOrder(Pow4(j), 1048576, q + 1);
    if q > 0 { TimesOrder(Pow4(j), 1048576, q); }
  }

  lemma {:induction false} BoundGrows(j: nat, k: nat)
    requires j <= k
    ensures Bound(j) <= Bound(k)
    decreases k - j
  {
    if j < k { BoundGrows(j + 1, k); }
  }

  lemma SafeStep(mode: Mode, j: nat, q: Point)
    requires j < 32 && Energy(XY(q)) <= Bound(j)
    ensures XY(Step(mode, j, q)) == Turn(XY(q), j, Direction(mode, q))
    ensures Energy(XY(Step(mode, j, q))) <= Bound(j + 1)
  {
    hide Bound, Step, Energy, Turn, Pow4;
    BoundGrows(j, 32); BoundGrows(j + 1, 32); LateBound(32);
    var s := Direction(mode, q);
    EnergyStep(XY(q), j, s);
    NextBound(Energy(XY(q)), j);
    EnergyFits(Turn(XY(q), j, s));
    EnergyFits(XY(q));
    StepIsTurn(mode, j, q);
  }

  /** Inputs of at most 0.6 of full scale: no iteration wraps, in either mode. */
  lemma {:induction false} SafeInputsNeverWrap(mode: Mode, p: Point, n: nat)
    requires n <= 32 && 25 * Energy(XY(p)) <= 9 * 0x4000_0000_0000_0000
    ensures Unwrapped(mode, p, n) && Energy(XY(Iterate(mode, p, n))) <= Bound(n)
  {
    hide Bound, Step, Energy, Turn, Direction;
    if n == 0 {
      NoBound();
    } else {
      SafeInputsNeverWrap(mode, p, n - 1);
      SafeStep(mode, n - 1, Iterate(mode, p, n - 1));
    }
  }

  lemma PrerotateKeepsEnergy(mode: Mode, p: Point)
    requires 25 * Energy(XY(p)) <= 9 * 0x4000_0000_0000_0000
    ensures Energy(XY(Prerotate(mode, p))) == Energy(XY(p))
    ensures mode == Vectoring ==> Prerotate(mode, p).x >= 0
  {
    EnergyFits(XY(p));
  }

  /** The documented amplitude limit is enough: nothing wraps, in vectoring mode the y that is
      thrown away is at most 31 units, and in rotation mode the angle left is at most one. */
  lemma SafeAmplitude(p: Point)
    requires 25 * Energy(XY(p)) <= 9 * 0x4000_0000_0000_0000
    ensures forall mode: Mode :: Unwrapped(mode, Prerotate(mode, p), 32)
    ensures var q := Iterate(Vectoring, Prerotate(Vectoring, p), 32); q.x >= 0 && Magnitude(q.y) <= 31
    ensures -1 <= Iterate(Rotation, Prerotate(Rotation, p), 32).z <= 1
  {
    hide Energy, Iterate, Unwrapped, Prerotate, Bound;
    forall mode: Mode ensures Unwrapped(mode, Prerotate(mode, p), 32) {
      PrerotateKeepsEnergy(mode, p);
      SafeInputsNeverWrap(mode, Prerotate(mode, p), 32);
    }
    PrerotateKeepsEnergy(Vectoring, p);
    VectoringConverges(p);
    RotationConverges(p);
  }

  const FULL_SCALE := 2147483647

  predicate IsCorner(v: Vector) {
    (v.x == FULL_SCALE || v.x == -FULL_SCALE) && (v.y == FULL_SCALE || v.y == -FULL_SCALE)
  }

  predicate IsAxis(v: Vector) {
    ((v.x == FULL_SCALE || v.x == -FULL_SCALE) && v.y == 0) || (v.x == 0 && (v.y == FULL_SCALE || v.y == -FULL_SCALE))
  }

  lemma AxisTurnsToCorner(v: Vector, s: int)
    requires IsAxis(v) && (s == 1 || s == -1)
    ensures IsCorner(Turn(v, 0, s))
  {
    assert Shift(v.x, 0) == v.x && Shift(v.y, 0) == v.y;
  }

  lemma CornerLeavesRange(v: Vector, s: int)
    requires IsCorner(v) && (s == 1 || s == -1)
    ensures !IsInt32(Turn(v, 1, s).x) || !IsInt32(Turn(v, 1, s).y)
  {
    assert Pow2(1) == 2;
    assert Shift(FULL_SCALE, 1) == 1073741823 && Shift(-FULL_SCALE, 1) == -1073741824;
  }

  lemma FirstTwo(mode: Mode, p: Point)
    requires Unwrapped(mode, p, 2)
    ensures var q := Iterate(mode, p, 1);
      XY(q) == Turn(XY(p), 0, Direction(mode, p)) && XY(Iterate(mode, p, 2)) == Turn(XY(q), 1, Direction(mode, q))
  {
    hide Step, Turn, Direction;
    assert Unwrapped(mode, p, 1);
    assert Iterate(mode, p, 0) == p;
  }

  /** The unit magnitude the class injects by default is safe for no phase at all: by the second
      iteration x or y has wrapped. */
  lemma FullScaleWraps(z: int32)
    ensures !Unwrapped(Rotation, Prerotate(Rotation, Point(FULL_SCALE, 0, z)), 2)
  {
    var p := Prerotate(Rotation, Point(FULL_SCALE, 0, z));
    assert IsAxis(XY(p));
    hide Iterate, Unwrapped, Turn, Prerotate;
    if Unwrapped(Rotation, p, 2) {
      FirstTwo(Rotation, p);
      var q := Iterate(Rotation, p, 1);
      AxisTurnsToCorner(XY(p), Direction(Rotation, p));
      CornerLeavesRange(XY(q), Direction(Rotation, q));
    }
  }

  /** Gain compensation never wraps and never enlarges. */
  lemma CompensationIsExact(v: int32)
    ensures Compensate(v) == Shift(v * CORDIC_GAIN_INV, 31)
    ensures v >= 0 ==> 0 <= Compensate(v) <= v
    ensures v < 0 ==> v <= Compensate(v) < 0
  {
    hide Pow2, Wrap;
    PowerTable();
    var q := v * 1304095400 / 0x8000_0000;
    GainBounds(v, q);
    assert Shift(v * CORDIC_GAIN_INV, 31) == q;
    hide Shift;
    assert IsInt32(v) && IsInt32(q);
  }

  lemma GainBounds(v: int32, q: int)
    requires q == v * 1304095400 / 0x8000_0000
    ensures v >= 0 ==> 0 <= q <= v
    ensures v < 0 ==> v <= q < 0
  {
  }

  lemma NextBound(e: nat, j: nat)
    requires e <= Bound(j)
    ensures e + e / Pow4(j) + SLACK <= Bound(j + 1)
  {
    DivisionOrder(e, Bound(j), Pow4(j));
  }

  /** Energy below full scale keeps both coordinates within 32 bits. */
  lemma EnergyFits(v: Vector)
    requires Energy(v) < FULL_ENERGY
    ensures -TWO31 < v.x < TWO31 && -TWO31 < v.y < TWO31
  {
    Squares(v.x, v.y);
    BelowRoot(v.x);
    BelowRoot(v.y);
  }

  lemma BelowRoot(v: int)
    requires v * v < FULL_ENERGY
    ensures -TWO31 < v < TWO31
  {
    if v >= TWO31 { SquareOrder(TWO31, v); } else if v <= -TWO31 { SquareOrder(TWO31, -v); }
  }

  lemma StepIsTurn(mode: Mode, j: nat, q: Point)
    requires j < 32 && q.x > -TWO31 && q.y > -TWO31
    requires var v := Turn(XY(q), j, Direction(mode, q)); IsInt32(v.x) && IsInt32(v.y)
    ensures XY(Step(mode, j, q)) == Turn(XY(q), j, Direction(mode, q))
  {
    hide Shift, Wrap;
    ShiftRange(q.x, j);
    ShiftRange(q.y, j);
  }

  lemma ShiftRange(v: int, j: nat)
    requires -TWO31 < v < TWO31
    ensures -TWO31 < Shift(v, j) < TWO31
  {
    hide Pow2;
    var q, p := Shift(v, j), Pow2(j);
    ShiftBounds(v, j);
    if q >= 0 { TimesOrder(p, 1, q + 1); } else { TimesOrder(p, 1, -q); }
  }

  // ---- the stride ----

  /** The swap of the input into the loop's range. */
  method Enter(xIn: int32, yIn: int32, zIn: int32, mode: Mode) returns (x: int32, y: int32, z: int32)
    ensures Point(x, y, z) == Prerotate(mode, Point(xIn, yIn, zIn))
  {
    hide Wrap, Negate;
    x, y, z := xIn, yIn, zIn;
    match mode {
      case Vectoring =>
        if x < 0 {
          if y >= 0 {
            var tx := x;
            x := y;
            y := Negate(tx);
            z := Wrap(z + PI_OVER_2);
          } else {
            var tx := x;
            x := Negate(y);
            y := tx;
            z := Wrap(z - PI_OVER_2);
          }
        }
      case Rotation =>
        if z > PI_OVER_2 {
          var tx := x;
          x := Negate(y);
          y := tx;
          z := Wrap(z - PI_OVER_2);
        } else if z < -PI_OVER_2 {
          var tx := x;
          x := y;
          y := Negate(tx);
          z := Wrap(z + PI_OVER_2);
        }
    }
  }

  method Loop(xIn: int32, yIn: int32, zIn: int32, mode: Mode, iterations: nat) returns (x: int32, y: int32, z: int32)
    requires iterations <= 32
    ensures Point(x, y, z) == Iterate(mode, Point(xIn, yIn, zIn), iterations)
  {
    hide Shift, Wrap, Atan, Iterate;
    x, y, z := xIn, yIn, zIn;
    NoSteps(mode, Point(x, y, z));
    for j := 0 to iterations
      invariant Point(x, y, z) == Iterate(mode, Point(xIn, yIn, zIn), j)
    {
      var dx, dy, dz;
      if (mode == Vectoring && y >= 0) || (mode == Rotation && z < 0) {
        dx, dy, dz := Wrap(Shift(y, j)), Wrap(-Shift(x, j)), Atan(j);
      } else {
        dx, dy, dz := Wrap(-Shift(y, j)), Wrap(Shift(x, j)), -Atan(j);
      }
      IterateNext(mode, Point(xIn, yIn, zIn), j, Point(x, y, z));
      x, y, z := Wrap(x + dx), Wrap(y + dy), Wrap(z + dz);
    }
  }

  lemma NoSteps(mode: Mode, p: Point)
    ensures Iterate(mode, p, 0) == p
  {
  }

  lemma IterateNext(mode: Mode, p: Point, j: nat, q: Point)
    requires j < 32 && q == Iterate(mode, p, j)
    ensures Iterate(mode, p, j + 1) == Step(mode, j, q)
  {
  }

  method ProcessSample(xIn: int32, yIn: int32, zIn: int32, mode: Mode, iterations: nat) returns (out: Point)
    requires iterations <= 32
    ensures out == Resolved(mode, Point(xIn, yIn, zIn), iterations)
  {
    hide Prerotate, Iterate, Compensate;
    if mode == Vectoring && xIn == 0 && yIn == 0 { return Point(0, 0, 0); }
    var x, y, z := Enter(xIn, yIn, zIn, mode);
    x, y, z := Loop(x, y, z, mode, iterations);
    out := Point(Compensate(x), if mode == Vectoring then 0 else Compensate(y), z);
  }

  method ProcessStride(xIn: array<int32>, yIn: array<int32>, zIn: array<int32>,
                       xOut: array<int32>, yOut: array<int32>, zOut: array<int32>, mode: Mode, iterations: nat)
    requires iterations <= 32
    requires yIn.Length == zIn.Length == xIn.Length && xOut.Length == yOut.Length == zOut.Length >= xIn.Length
    requires xOut != yOut && yOut != zOut && xOut != zOut
    requires {xOut, yOut, zOut} !! {xIn, yIn, zIn}
    modifies xOut, yOut, zOut
    ensures forall i :: 0 <= i < xIn.Length ==>
              Point(xOut[i], yOut[i], zOut[i]) == Resolved(mode, Point(xIn[i], yIn[i], zIn[i]), iterations)
  {
    hide Resolved;
    for i := 0 to xIn.Length
      invariant forall k :: 0 <= k < i ==>
                  Point(xOut[k], yOut[k], zOut[k]) == Resolved(mode, Point(xIn[k], yIn[k], zIn[k]), iterations)
    {
      var out := ProcessSample(xIn[i], yIn[i], zIn[i], mode, iterations);
      xOut[i], yOut[i], zOut[i] := out.x, out.y, out.z;
    }
  }
}
