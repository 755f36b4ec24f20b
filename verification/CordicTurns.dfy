/** cordic_trig_accelerator.py: what the loop does to the vector and what it writes in the angle.
    The vector is turned and lengthened like a complex number by 1 - i s 2^-j, whose angle the
    table holds; the compensated output is the input turned, within 100 units. */
module CordicTurns {
  import opened Basics
  import opened Cordic
  import opened ComplexVectors

  // ---- the angle follows the vector ----

  /** Positive when w lies counterclockwise of v. */
  function Spin(v: Vector, w: Vector): int { v.x * w.y - v.y * w.x }

  lemma ProductOfShift(v: int, j: nat)
    ensures v * Shift(v, j) >= 0
    ensures v * Shift(v, j) == 0 ==> Shift(v, j) == 0
  {
    hide Shift;
    ShiftSign(v, j);
    ShiftOfZero(j);
    var q := Shift(v, j);
    if v < 0 { NonNegativeTimes(-v - 1, -q); assert v * q == -v * -q; PositiveTimes(-v, -q); } else if v > 0 && q > 0 { PositiveTimes(v, q); }
  }

  lemma ShiftOfZero(j: nat)
    ensures Shift(0, j) == 0
  {
  }

  lemma PositiveTimes(x: int, y: int)
    requires x > 0 && y > 0
    ensures x * y > 0
  {
  }

  lemma SpinOfTurn(v: Vector, j: nat, s: int)
    requires s == 1 || s == -1
    ensures Spin(v, Turn(v, j, s)) == -s * (v.x * Shift(v.x, j) + v.y * Shift(v.y, j))
  {
    hide Shift;
  }

  /** While nothing wraps, an iteration adds the table entry to z exactly when it turns the vector
      clockwise and subtracts it when it turns the other way; if the vector stays put, z moves by the
      entry all the same. */
  lemma AngleFollowsVector(mode: Mode, j: nat, p: Point)
    requires j < 32 && XY(Step(mode, j, p)) == Turn(XY(p), j, Direction(mode, p))
    ensures var q := Step(mode, j, p); var spin := Spin(XY(p), XY(q));
      && (spin < 0 ==> q.z == Wrap(p.z + Atan(j)))
      && (spin > 0 ==> q.z == Wrap(p.z - Atan(j)))
      && (spin == 0 ==> XY(q) == XY(p) && (q.z == Wrap(p.z + Atan(j)) || q.z == Wrap(p.z - Atan(j))))
  {
    hide Wrap, Atan, Step, Turn, Spin;
    StepAngleIs(mode, j, p);
    SpinCases(XY(p), j, Direction(mode, p));
  }

  lemma SpinCases(v: Vector, j: nat, s: int)
    requires s == 1 || s == -1
    ensures var spin := Spin(v, Turn(v, j, s));
      (spin < 0 ==> s == 1) && (spin > 0 ==> s == -1) && (spin == 0 ==> Turn(v, j, s) == v)
  {
    hide Shift, Spin;
    SpinOfTurn(v, j, s);
    ProductOfShift(v.x, j);
    ProductOfShift(v.y, j);
  }

  lemma NegateIsExact(v: int32)
    requires v > -TWO31
    ensures Negate(v) + v == 0
  {
    var n: int := v;
    assert IsInt32(v) && IsInt32(-n);
    hide Wrap;
    assert Wrap(-n) == -n;
  }

  lemma RightAngle(x: int, y: int)
    ensures Energy(Vector(y, -x)) == Energy(Vector(-y, x)) == Energy(Vector(x, y))
    ensures Spin(Vector(x, y), Vector(y, -x)) + Energy(Vector(x, y)) == 0 && Spin(Vector(x, y), Vector(-y, x)) == Energy(Vector(x, y))
    ensures x * y + y * -x == 0 && x * -y + y * x == 0
    ensures Energy(Vector(x, y)) == 0 ==> x == y == 0
  {
    Squares(x, y);
    if x != 0 { PositiveTimes(if x > 0 then x else -x, if x > 0 then x else -x); }
    if y != 0 { PositiveTimes(if y > 0 then y else -y, if y > 0 then y else -y); }
  }

  /** The quarter turn before the loop: a right angle, clockwise with z raised by a quarter of the
      circle or counterclockwise with z lowered by one, or nothing. */
  lemma QuarterTurn(mode: Mode, p: Point)
    requires p.x > -TWO31 && p.y > -TWO31
    ensures var q := Prerotate(mode, p); var spin := Spin(XY(p), XY(q));
      q == p || (&& p.x * q.x + p.y * q.y == 0 && Energy(XY(q)) == Energy(XY(p))
                 && (spin < 0 ==> q.z == Wrap(p.z + 0x4000_0000))
                 && (spin > 0 ==> q.z == Wrap(p.z - 0x4000_0000))
                 && (spin == 0 ==> p.x == p.y == 0))
  {
    hide Wrap, Energy, Spin, Negate;
    NegateIsExact(p.x); NegateIsExact(p.y);
    RightAngle(p.x, p.y);
    var e := Energy(XY(p));
    var q := Prerotate(mode, p);
    assert q == p || XY(q) == Vector(p.y, -p.x) || XY(q) == Vector(-p.y, p.x);
  }

  /** +1 for a clockwise turn in iteration j and -1 for the other way, read off the vectors; where
      the vector stays put, what the loop tests. */
  function Turned(mode: Mode, p: Point, j: nat): (s: int)
    requires j < 32
    ensures s == 1 || s == -1
  {
    var spin := Spin(XY(Iterate(mode, p, j)), XY(Iterate(mode, p, j + 1)));
    if spin < 0 then 1 else if spin > 0 then -1 else Direction(mode, Iterate(mode, p, j))
  }

  /** The table entries of the first n iterations, signed by the turns. */
  function Swept(mode: Mode, p: Point, n: nat): int
    requires n <= 32
  {
    if n == 0 then 0 else Swept(mode, p, n - 1) + Turned(mode, p, n - 1) * Atan(n - 1)
  }

  lemma WrapTwice(a: int, b: int)
    ensures Wrap(Wrap(a) + b) == Wrap(a + b)
  {
    var m := Wrap(a);
    assert (m - a) % TWO32 == 0;
    SameRemainder(m + b, a + b);
  }

  lemma SameRemainder(a: int, b: int)
    requires (a - b) % TWO32 == 0
    ensures a % TWO32 == b % TWO32
  {
  }

  /** While nothing wraps in x and y, the angle that comes out is the one that went in plus the
      signed table entries. */
  lemma {:induction false} AngleIsSwept(mode: Mode, p: Point, n: nat)
    requires n <= 32 && Unwrapped(mode, p, n)
    ensures Iterate(mode, p, n).z == Wrap(p.z + Swept(mode, p, n))
    ensures forall j: nat :: j < n ==> Turned(mode, p, j) == Direction(mode, Iterate(mode, p, j))
  {
    hide Wrap, Atan, Step, Turn, Direction, Spin;
    if n == 0 {
      WrapIsExact(p.z);
    } else {
      AngleIsSwept(mode, p, n - 1);
      var q := Iterate(mode, p, n - 1);
      TurnedIsDirection(mode, p, n - 1);
      StepAngleIs(mode, n - 1, q);
      WrapTwice(p.z + Swept(mode, p, n - 1), Direction(mode, q) * Atan(n - 1));
    }
  }

  lemma WrapIsExact(v: int32)
    ensures Wrap(v) == v
  {
  }

  lemma StepAngleIs(mode: Mode, j: nat, p: Point)
    requires j < 32
    ensures Step(mode, j, p).z == Wrap(p.z + Direction(mode, p) * Atan(j))
  {
    hide Wrap, Atan, Shift;
  }

  lemma TurnedIsDirection(mode: Mode, p: Point, j: nat)
    requires j < 32 && Unwrapped(mode, p, j + 1)
    ensures Turned(mode, p, j) == Direction(mode, Iterate(mode, p, j))
  {
    hide Turn, Step, Spin;
    var q := Iterate(mode, p, j);
    SpinCases(XY(q), j, Direction(mode, q));
  }

  // ---- the vector is turned and lengthened ----

  /** 2^-n. */
  function Half(n: nat): (h: real)
    ensures 0.0 < h <= 1.0
  {
    if n == 0 then 1.0 else Half(n - 1) / 2.0
  }

  lemma {:induction false} HalfIsInverse(n: nat)
    ensures Half(n) * (Pow2(n) as real) == 1.0
  {
    if n > 0 { HalfIsInverse(n - 1); }
  }

  lemma ShiftIsNear(v: int, j: nat)
    ensures 0.0 <= Half(j) * v as real - Shift(v, j) as real < 1.0
  {
    hide Shift, Pow2, Half;
    ShiftBounds(v, j);
    HalfIsInverse(j);
    NearQuotient(v, Shift(v, j), Pow2(j), Half(j));
  }

  lemma NearQuotient(v: int, q: int, p: int, h: real)
    requires q * p <= v < q * p + p && h * (p as real) == 1.0 && h > 0.0
    ensures 0.0 <= h * v as real - q as real < 1.0
  {
    var a, b, c := v as real, q as real, p as real;
    ProductCasts(q, p);
    assert b * c <= a < b * c + c;
    RealOrder(h, b * c, a);
    RealOrderStrict(h, a, b * c + c);
    Regroup(h, b, c);
    Distribute(h, b * c, c);
  }

  lemma ProductCasts(q: int, p: int)
    ensures (q * p) as real == q as real * p as real
  {
  }

  lemma RealOrder(k: real, x: real, y: real)
    requires k >= 0.0 && x <= y
    ensures k * x <= k * y
  {
  }

  lemma RealOrderStrict(k: real, x: real, y: real)
    requires k > 0.0 && x < y
    ensures k * x < k * y
  {
  }

  /** The turn of iteration j: 1 - i s 2^-j. */
  function Elementary(s: int, j: nat): Complex { C(1.0, -(s as real) * Half(j)) }

  /** The product of the turns of the first n iterations. */
  function Gain(mode: Mode, p: Point, n: nat): Complex
    requires n <= 32
  {
    if n == 0 then ONE else Mul(Gain(mode, p, n - 1), Elementary(Turned(mode, p, n - 1), n - 1))
  }

  function AsComplex(v: Vector): Complex { C(v.x as real, v.y as real) }

  predicate Within(z: Complex, w: Complex, b: real) {
    -b <= z.re - w.re <= b && -b <= z.im - w.im <= b
  }

  /** What was off by b is off by this much after a turn of tangent h and its rounding. */
  function Off(b: real, h: real): real { b + h * b + 1.0 }

  /** w turned by tangent h, clockwise for s = 1. */
  function Leaning(w: Complex, h: real, s: int): Complex {
    if s == 1 then C(w.re + h * w.im, w.im - h * w.re) else C(w.re - h * w.im, w.im + h * w.re)
  }

  /** An iteration multiplies by its turn; rounding adds less than one unit, and what was off grows
      by 1 + 2^-j. */
  lemma TurnIsNear(v: Vector, w: Complex, j: nat, s: int, b: real)
    requires s == 1 || s == -1
    requires Within(AsComplex(v), w, b) && b >= 0.0
    ensures Within(AsComplex(Turn(v, j, s)), Mul(w, Elementary(s, j)), Off(b, Half(j)))
  {
    hide Shift, Half, Turn, Elementary, Mul, Off, AsComplex, Within, Leaning;
    ShiftIsNear(v.x, j);
    ShiftIsNear(v.y, j);
    TimesElementary(w, s, j);
    TurnCases(v, j, s);
    AsComplexIs(v);
    AsComplexIs(Turn(v, j, s));
    var t, x, y, p, q := Turn(v, j, s), v.x as real, v.y as real, Shift(v.x, j) as real, Shift(v.y, j) as real;
    SidesAreNear(x, y, p, q, w, Half(j), b);
    if s == 1 { assert AsComplex(t) == C(x + q, y - p); } else { assert AsComplex(t) == C(x - q, y + p); }
  }

  lemma SidesAreNear(x: real, y: real, p: real, q: real, w: Complex, h: real, b: real)
    requires Within(C(x, y), w, b) && h > 0.0 && 0.0 <= h * x - p < 1.0 && 0.0 <= h * y - q < 1.0
    ensures Within(C(x + q, y - p), Leaning(w, h, 1), Off(b, h))
    ensures Within(C(x - q, y + p), Leaning(w, h, -1), Off(b, h))
  {
    hide Off;
    CoordinateIsNear(x, w.re, y, w.im, h, q, b);
    CoordinateIsNear(y, w.im, x, w.re, h, p, b);
  }

  lemma CoordinateIsNear(x: real, wx: real, y: real, wy: real, h: real, q: real, b: real)
    requires -b <= x - wx <= b && -b <= y - wy <= b && 0.0 <= h * y - q < 1.0 && h > 0.0
    ensures -Off(b, h) <= x + q - (wx + h * wy) <= Off(b, h)
    ensures -Off(b, h) <= x - q - (wx - h * wy) <= Off(b, h)
  {
    ScaledGap(h, y - wy, b);
    Distribute(h, y, wy);
    SumsAreNear(x, wx, h * y, h * wy, q, b, h * b);
  }

  lemma SumsAreNear(x: real, wx: real, hy: real, hw: real, q: real, b: real, hb: real)
    requires -b <= x - wx <= b && -hb <= hy - hw <= hb && 0.0 <= hy - q < 1.0
    ensures -(b + hb + 1.0) <= x + q - (wx + hw) <= b + hb + 1.0
    ensures -(b + hb + 1.0) <= x - q - (wx - hw) <= b + hb + 1.0
  {
  }

  lemma TimesElementary(w: Complex, s: int, j: nat)
    requires s == 1 || s == -1
    ensures var h := Half(j);
      Mul(w, Elementary(s, j)) == Leaning(w, h, s)
  {
    hide Half;
  }

  lemma TurnCases(v: Vector, j: nat, s: int)
    requires s == 1 || s == -1
    ensures var a, b := Shift(v.x, j), Shift(v.y, j);
      Turn(v, j, s) == if s == 1 then Vector(v.x + b, v.y - a) else Vector(v.x - b, v.y + a)
  {
    hide Shift;
  }

  lemma ScaledGap(h: real, d: real, b: real)
    requires h >= 0.0 && -b <= d <= b
    ensures -(h * b) <= h * d <= h * b
  {
    RealOrder(h, d, b);
    RealOrder(h, -d, b);
  }

  /** Most that rounding can have moved the vector after n iterations. */
  function Drift(n: nat): (e: real)
    ensures e >= 0.0
  {
    if n == 0 then 0.0 else Off(Drift(n - 1), Half(n - 1))
  }

  lemma {:induction false} LoopMultiplies(mode: Mode, p: Point, n: nat)
    requires n <= 32 && Unwrapped(mode, p, n)
    ensures Within(AsComplex(XY(Iterate(mode, p, n))), Mul(AsComplex(XY(p)), Gain(mode, p, n)), Drift(n))
  {
    hide Step, Turn, Turned, Mul, Elementary, Half, Direction, AsComplex, Off;
    var z := AsComplex(XY(p));
    if n == 0 {
      TimesOne(z);
    } else {
      LoopMultiplies(mode, p, n - 1);
      var q, g, s := Iterate(mode, p, n - 1), Gain(mode, p, n - 1), Turned(mode, p, n - 1);
      TurnedIsDirection(mode, p, n - 1);
      TurnIsNear(XY(q), Mul(z, g), n - 1, s, Drift(n - 1));
      MulAssoc(z, g, Elementary(s, n - 1));
      assert Gain(mode, p, n) == Mul(g, Elementary(s, n - 1));
      assert XY(Iterate(mode, p, n)) == Turn(XY(q), n - 1, s);
    }
  }

  lemma TimesOne(z: Complex)
    ensures Mul(z, ONE) == z
  {
  }

  // ---- how much rounding there is ----

  function Growth(n: nat): (g: real)
    ensures g >= 1.0
  {
    if n == 0 then 1.0 else Growth(n - 1) + Half(n - 1) * Growth(n - 1)
  }

  lemma {:induction false} GrowthBound(n: nat)
    ensures Growth(n) <= 5.0 && (n >= 3 ==> Growth(n) <= 5.0 - 10.0 * Half(n))
  {
    if n <= 3 {
      FirstHalves();
    } else {
      GrowthBound(n - 1);
      GrowthStep(Half(n - 1), Growth(n - 1));
      var h, g := Half(n - 1), Growth(n - 1);
      assert Growth(n) == g + h * g;
      assert Half(n) == h / 2.0;
      assert Growth(n) <= 5.0 - 5.0 * h;
    }
  }

  lemma FirstHalves()
    ensures Half(3) == 0.125 && Growth(0) == 1.0 && Growth(1) == 2.0 && Growth(2) == 3.0 && Growth(3) == 3.75
  {
    assert Half(1) == 0.5 && Half(2) == 0.25;
    assert Growth(1) == 2.0;
    assert Growth(2) == 3.0;
  }

  lemma GrowthStep(h: real, g: real)
    requires 0.0 < h && g <= 5.0 - 10.0 * h
    ensures g + h * g <= 5.0 - 5.0 * h
  {
    RealOrder(h, g, 5.0 - 10.0 * h);
    ProductPositive(h, h);
  }

  lemma {:induction false} DriftBound(n: nat)
    ensures Drift(n) <= n as real * Growth(n) <= 5.0 * n as real
  {
    hide Half;
    GrowthBound(n);
    RealOrder(n as real, Growth(n), 5.0);
    hide Off;
    if n > 0 {
      DriftBound(n - 1);
      DriftArithmetic(Half(n - 1), (n - 1) as real, Growth(n - 1), Drift(n - 1));
    }
  }

  lemma DriftArithmetic(h: real, k: real, g: real, d: real)
    requires d <= k * g && g >= 1.0 && h > 0.0
    ensures Off(d, h) <= (k + 1.0) * (g + h * g)
  {
    RealOrder(1.0 + h, d, k * g);
    RealOrder(h, 0.0, g);
    assert (k + 1.0) * (g + h * g) == (1.0 + h) * (k * g) + g + h * g;
  }

  // ---- how much the vector is lengthened ----

  /** 4^-n. */
  function Quarter(n: nat): (q: real)
    ensures 0.0 < q <= 1.0
  {
    if n == 0 then 1.0 else Quarter(n - 1) / 4.0
  }

  lemma {:induction false} HalfSquared(n: nat)
    ensures Half(n) * Half(n) == Quarter(n)
  {
    if n > 0 { HalfSquared(n - 1); }
  }

  function LongerBy(s: real, q: real): real { s * (1.0 + q) }

  /** The product of 1 + 4^-j, whatever way the turns went. */
  function Stretching(n: nat): (s: real)
    ensures s >= 1.0
  {
    if n == 0 then 1.0 else LongerBy(Stretching(n - 1), Quarter(n - 1))
  }

  lemma ElementaryPower(s: int, j: nat)
    requires s == 1 || s == -1
    ensures Power(Elementary(s, j)) == 1.0 + Quarter(j)
  {
    hide Half, Quarter;
    HalfSquared(j);
    var h := Half(j);
    assert Elementary(s, j).im == h || Elementary(s, j).im == -h;
  }

  lemma {:induction false} GainPower(mode: Mode, p: Point, n: nat)
    requires n <= 32
    ensures Power(Gain(mode, p, n)) == Stretching(n)
  {
    hide Mul, Elementary, Turned, Quarter, Power, LongerBy;
    if n == 0 {
      PowerOne();
    } else {
      GainPower(mode, p, n - 1);
      TurnLengthens(Gain(mode, p, n - 1), Turned(mode, p, n - 1), n - 1);
    }
  }

  lemma TurnLengthens(g: Complex, s: int, j: nat)
    requires s == 1 || s == -1
    ensures Power(Mul(g, Elementary(s, j))) == LongerBy(Power(g), Quarter(j))
  {
    hide Mul, Elementary, Quarter, Power;
    PowerMul(g, Elementary(s, j));
    ElementaryPower(s, j);
  }

  lemma PowerOne()
    ensures Power(ONE) == 1.0
  {
  }

  /** Bounds on the product, one factor further. */
  lemma StretchStep(n: nat, lo: real, hi: real, lo': real, hi': real, q: real)
    requires lo <= Stretching(n) <= hi && Quarter(n) == q && 0.0 < q
    requires lo' <= lo + q * lo && hi + q * hi <= hi'
    ensures lo' <= Stretching(n + 1) <= hi' && Quarter(n + 1) == q / 4.0
  {
    RealOrder(q, lo, Stretching(n));
    RealOrder(q, Stretching(n), hi);
    Distribute(Stretching(n), 1.0, q);
  }

  lemma EarlyStretch()
    ensures 2.7118193468846 <= Stretching(16) <= 2.7118193468858 && Quarter(16) == 1.0 / 4294967296.0
  {
    hide Stretching, Quarter;
    NoStretch();
    StretchStep(0, 1.0, 1.0, 2.0, 2.0, 1.0 / 1.0);
    StretchStep(1, 2.0, 2.0, 2.5, 2.5, 1.0 / 4.0);
    StretchStep(2, 2.5, 2.5, 2.65625, 2.65625, 1.0 / 16.0);
    StretchStep(3, 2.65625, 2.65625, 2.69775390625, 2.69775390625, 1.0 / 64.0);
    StretchStep(4, 2.69775390625, 2.69775390625, 2.7082920074462, 2.7082920074463, 1.0 / 256.0);
    StretchStep(5, 2.7082920074462, 2.7082920074463, 2.7109368238597, 2.7109368238599, 1.0 / 1024.0);
    StretchStep(6, 2.7109368238597, 2.7109368238599, 2.7115986736702, 2.7115986736705, 1.0 / 4096.0);
    StretchStep(7, 2.7115986736702, 2.7115986736705, 2.7117641765189, 2.7117641765193, 1.0 / 16384.0);
    StretchStep(8, 2.7117641765189, 2.7117641765193, 2.7118055547564, 2.7118055547569, 1.0 / 65536.0);
    StretchStep(9, 2.7118055547564, 2.7118055547569, 2.7118158994736, 2.7118158994742, 1.0 / 262144.0);
    StretchStep(10, 2.7118158994736, 2.7118158994742, 2.7118184856627, 2.7118184856634, 1.0 / 1048576.0);
    StretchStep(11, 2.7118184856627, 2.7118184856634, 2.7118191322106, 2.7118191322114, 1.0 / 4194304.0);
    StretchStep(12, 2.7118191322106, 2.7118191322114, 2.7118192938476, 2.7118192938485, 1.0 / 16777216.0);
    StretchStep(13, 2.7118192938476, 2.7118192938485, 2.7118193342568, 2.7118193342578, 1.0 / 67108864.0);
    StretchStep(14, 2.7118193342568, 2.7118193342578, 2.7118193443591, 2.7118193443602, 1.0 / 268435456.0);
    StretchStep(15, 2.7118193443591, 2.7118193443602, 2.7118193468846, 2.7118193468858, 1.0 / 1073741824.0);
  }

  lemma NoStretch()
    ensures Stretching(0) == 1.0 && Quarter(0) == 1.0
  {
  }

  /** Beyond the sixteenth iteration the product grows by less than 2 * 4^-16 of itself. */
  lemma {:induction false} LateStretch(n: nat)
    requires 16 <= n
    ensures Stretching(16) <= Stretching(n) <= Stretching(16) * (1.0 + 2.0 * (Quarter(16) - Quarter(n)))
    ensures Quarter(n) <= Quarter(16) <= 0.01
    decreases n
  {
    hide Stretching, Quarter;
    EarlyStretch();
    if n > 16 {
      LateStretch(n - 1);
      NextStretch(n);
      LateArithmetic(Stretching(16), Stretching(n - 1), Quarter(16), Quarter(n - 1));
    }
  }

  lemma NextStretch(n: nat)
    requires n > 0
    ensures Stretching(n) == Stretching(n - 1) + Quarter(n - 1) * Stretching(n - 1) && Quarter(n) == Quarter(n - 1) / 4.0
  {
    Distribute(Stretching(n - 1), 1.0, Quarter(n - 1));
  }

  lemma LateArithmetic(a: real, s: real, top: real, q: real)
    requires 0.0 < q <= top <= 0.01 && a >= 1.0 && 1.0 <= s <= a * (1.0 + 2.0 * (top - q))
    ensures a <= s ==> a <= s + q * s
    ensures s + q * s <= a * (1.0 + 2.0 * (top - q / 4.0))
  {
    var m, m' := 1.0 + 2.0 * (top - q), 1.0 + 2.0 * (top - q / 4.0);
    assert m * (1.0 + q) <= m' by {
      RealOrder(q, top, 0.01);
      ProductPositive(q, q);
      assert m * (1.0 + q) == 1.0 + 2.0 * top - q + 2.0 * (q * top) - 2.0 * (q * q);
    }
    RealOrder(1.0 + q, s, a * m);
    RealOrder(a, m * (1.0 + q), m');
    assert (1.0 + q) * (a * m) == a * (m * (1.0 + q));
  }

  lemma Stretched()
    ensures 2.7118193468 < Stretching(32) < 2.7118193482
  {
    hide Stretching, Quarter;
    EarlyStretch();
    LateStretch(32);
    var a, q := Stretching(16), Quarter(16) - Quarter(32);
    assert Stretching(32) <= a * (1.0 + 2.0 * q);
    RealOrder(a, 1.0 + 2.0 * q, 1.00000000048);
  }

  // ---- the output ----

  /** CORDIC_GAIN_INV / 2^31. */
  const GAIN := 1304095400.0 / 2147483648.0

  /** The turns of all 32 iterations, compensated. */
  function Response(mode: Mode, p: Point): Complex { Scale(GAIN, Gain(mode, Prerotate(mode, p), 32)) }

  /** The compensated turns have nearly modulus 1, whatever the input: 23 parts in a million more. */
  lemma ResponseIsNearlyUnit(mode: Mode, p: Point)
    ensures 1.00004547 < Power(Response(mode, p)) < 1.00004548
  {
    hide Gain, Stretching, Power;
    var g := Gain(mode, Prerotate(mode, p), 32);
    GainPower(mode, Prerotate(mode, p), 32);
    Stretched();
    PowerScale(GAIN, g);
  }

  /** The excess is the constant's: rounding the inverse gain to an integer gives 1304065748. */
  lemma GainConstantIsOff()
    ensures 0.999999999 < Square(1304065748.0 / 2147483648.0) * Stretching(32) < 1.000000001
    ensures Square(GAIN) * Stretching(32) > 1.00004547
  {
    hide Stretching;
    Stretched();
  }

  lemma HalfOf31()
    ensures Half(31) == 1.0 / 2147483648.0
  {
    hide Half, Pow2;
    HalfIsInverse(31);
    PowerTable();
  }

  lemma CompensateIsNear(v: int32)
    ensures 0.0 <= GAIN * v as real - Compensate(v) as real < 1.0
  {
    hide Shift, Wrap, Half, Compensate;
    CompensationIsExact(v);
    ShiftIsNear(v * CORDIC_GAIN_INV, 31);
    HalfOf31();
  }

  lemma ScaledNear(v: int32, w: real, b: real)
    requires -b <= v as real - w <= b
    ensures -(GAIN * b) - 1.0 <= Compensate(v) as real - GAIN * w <= GAIN * b
  {
    hide Compensate;
    CompensateIsNear(v);
    ScaledGap(GAIN, v as real - w, b);
    Distribute(GAIN, v as real, w);
  }

  /** Unless x or y wraps, the output is the prerotated input times the response: within 100 units a
      coordinate in rotation mode; in vectoring mode x within 100 and the dropped y within 120 of 0. The
      angle has changed by the table entries of those turns. */
  lemma OutputIsTurnedInput(mode: Mode, p: Point)
    requires Unwrapped(mode, Prerotate(mode, p), 32)
    requires mode == Vectoring ==> Prerotate(mode, p).x >= 0 && !(p.x == 0 && p.y == 0)
    ensures var w, out := Mul(AsComplex(XY(Prerotate(mode, p))), Response(mode, p)), Resolved(mode, p, 32);
      -100.0 <= out.x as real - w.re <= 100.0
      && (mode == Rotation ==> -100.0 <= out.y as real - w.im <= 100.0)
      && (mode == Vectoring ==> -120.0 <= w.im <= 120.0)
      && out.z == Wrap(Prerotate(mode, p).z + Swept(mode, Prerotate(mode, p), 32))
  {
    hide Iterate, Unwrapped, Prerotate, Gain, Mul, Compensate, AsComplex, Drift, Wrap, Swept;
    var v := Prerotate(mode, p);
    AngleIsSwept(mode, v, 32);
    var z, g, q := AsComplex(XY(v)), Gain(mode, v, 32), Iterate(mode, v, 32);
    LoopMultiplies(mode, v, 32);
    DriftBound(32);
    AsComplexIs(XY(q));
    MulScale(GAIN, z, g);
    var w := Mul(z, g);
    ScaledNear(q.x, w.re, 160.0);
    ScaledNear(q.y, w.im, 160.0);
    if mode == Vectoring {
      VectoringConverges(p);
      ScaledGap(GAIN, w.im, 191.0);
    }
  }

  lemma AsComplexIs(v: Vector)
    ensures AsComplex(v) == C(v.x as real, v.y as real)
  {
  }

  lemma EnergyIsPower(v: Vector)
    ensures Power(AsComplex(v)) == Energy(v) as real
  {
    ProductCasts(v.x, v.x); ProductCasts(v.y, v.y);
  }

  lemma SquareBelow(x: real, y: real)
    requires -y <= x <= y
    ensures Square(x) <= Square(y)
  {
    assert Square(y) - Square(x) == (y - x) * (y + x);
    RealOrder(y - x, 0.0, y + x);
  }

  /** In vectoring mode at safe amplitudes, the resolved magnitude is that of the input, 23 parts in
      a million long, within 100 units above and 220 below. */
  lemma ResolvedMagnitude(p: Point)
    requires 25 * Energy(XY(p)) <= 9 * 0x4000_0000_0000_0000
    ensures var m, e := Resolved(Vectoring, p, 32).x as real, Energy(XY(p)) as real;
      m >= 0.0 && (m >= 100.0 ==> Square(m - 100.0) <= 1.00004548 * e)
      && 1.00004547 * e <= Square(m + 100.0) + Square(120.0)
  {
    hide Energy, Iterate, Unwrapped, Response, Mul, AsComplex, Prerotate, Power, Square, Compensate, Wrap, Swept;
    if p.x == 0 && p.y == 0 {
      ZeroMagnitude(p);
    } else {
      SafeAmplitude(p);
      PrerotateKeepsEnergy(Vectoring, p);
      OutputIsTurnedInput(Vectoring, p);
      ResponseIsNearlyUnit(Vectoring, p);
      var v, u := XY(Prerotate(Vectoring, p)), Response(Vectoring, p);
      PowerMul(AsComplex(v), u);
      EnergyIsPower(v);
      CompensationIsExact(Iterate(Vectoring, Prerotate(Vectoring, p), 32).x);
      var m := Resolved(Vectoring, p, 32).x as real;
      assert m >= 0.0;
      hide Resolved;
      MagnitudeArithmetic(Mul(AsComplex(v), u), m, Energy(v) as real, Power(u));
    }
  }

  lemma ZeroMagnitude(p: Point)
    requires p.x == 0 && p.y == 0
    ensures Resolved(Vectoring, p, 32).x == 0 && Energy(XY(p)) == 0 && Square(100.0) + Square(120.0) >= 0.0
  {
  }

  lemma MagnitudeArithmetic(w: Complex, m: real, e: real, u: real)
    requires -100.0 <= m - w.re <= 100.0 && -120.0 <= w.im <= 120.0 && m >= 0.0 && e >= 0.0
    requires Power(w) == e * u && 1.00004547 < u < 1.00004548
    ensures m >= 100.0 ==> Square(m - 100.0) <= 1.00004548 * e
    ensures 1.00004547 * e <= Square(m + 100.0) + Square(120.0)
  {
    hide Power, Square;
    PowerIs(w);
    SquareBelow(w.re, m + 100.0); SquareBelow(w.im, 120.0);
    if m >= 100.0 { SquareBelow(m - 100.0, w.re); }
    RealOrder(e, 1.00004547, u); RealOrder(e, u, 1.00004548);
  }

  lemma PowerIs(z: Complex)
    ensures Power(z) == Square(z.re) + Square(z.im) && Square(z.re) >= 0.0 && Square(z.im) >= 0.0
  {
    SquarePositive(z.re);
    SquarePositive(z.im);
  }
}
