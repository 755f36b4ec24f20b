/** adaptive_null_tracker.py: Frost's linearly constrained LMS loop. */
module FrostLms {
  import opened ComplexVectors
  import opened ConstrainedLms

  function Step(w: Vec, a: Vec, x: Vec, mu: real): Vec { Adapt(w, a, x, 1.0, mu) }

  /** The weights after the samples xs. */
  function Track(w: Vec, a: Vec, xs: seq<Vec>, mu: real): Vec {
    if xs == [] then w else Step(Track(w, a, xs[..|xs| - 1], mu), a, xs[|xs| - 1], mu)
  }

  lemma UnitStretch(w: Vec)
    ensures Stretch(1.0, w) == w
  {
  }

  /** The body of the loop: the new weights and the output the old ones gave. */
  method AdaptInPlace(weights: array<Complex>, a: Vec, x: Vec, mu: real) returns (y: Complex)
    requires weights.Length == 4
    modifies weights
    ensures View(weights) == Step(old(View(weights)), a, x, mu)
    ensures y == Dot(old(View(weights)), x)
  {
    hide Dot, Plus, Minus, Times, Stretch;
    var w := View(weights);
    y := Dot(w, x);
    var v := Minus(w, Times(Scale(mu, Conj(y)), x));
    var inner := Dot(a, v);
    UnitStretch(w);
    Store(weights, Plus(Minus(v, Times(Scale(0.25, inner), a)), Stretch(0.25, a)));
  }

  method TrackInPlace(weights: array<Complex>, a: Vec, xs: seq<Vec>, mu: real, outPowers: array<real>)
    requires weights.Length == 4 && outPowers.Length == |xs|
    modifies weights, outPowers
    ensures View(weights) == Track(old(View(weights)), a, xs, mu)
    ensures forall i :: 0 <= i < |xs| ==>
              outPowers[i] == Power(Dot(Track(old(View(weights)), a, xs[..i], mu), xs[i]))
  {
    hide Dot, Power, Step;
    ghost var w0 := View(weights);
    for n := 0 to |xs|
      invariant View(weights) == Track(w0, a, xs[..n], mu)
      invariant forall i :: 0 <= i < n ==> outPowers[i] == Power(Dot(Track(w0, a, xs[..i], mu), xs[i]))
    {
      var y := AdaptInPlace(weights, a, xs[n], mu);
      outPowers[n] := Power(y);
      assert xs[..n + 1][..n] == xs[..n];
    }
    assert xs[..|xs|] == xs;
  }

  /** From any weights, any positive number of steps ends on the constraint. */
  lemma TrackReachesUnitGain(w: Vec, a: Vec, xs: seq<Vec>, mu: real)
    requires IsSteering(a)
    ensures |xs| >= 1 ==> UnitGain(a, Track(w, a, xs, mu))
    ensures UnitGain(a, w) ==> UnitGain(a, Track(w, a, xs, mu))
  {
    hide Dot, Norm2, Adapt;
    if xs != [] {
      StepRestoresUnitGain(Track(w, a, xs[..|xs| - 1], mu), a, xs[|xs| - 1], 1.0, mu);
    }
  }

  /** From weights on the constraint, adapting to a snapshot multiplies the output for that
      same snapshot by 1 - mu x^H P x. */
  lemma StepScalesOutput(w: Vec, a: Vec, x: Vec, mu: real)
    requires IsSteering(a) && UnitGain(a, w)
    ensures Dot(Step(w, a, x, mu), x) == Scale(1.0 - mu * Norm2(Project(a, x)), Dot(w, x))
  {
    hide Dot, Norm2, Project, Adapt;
    OutputAfterStep(w, a, x, 1.0, mu);
  }

  /** The output power for the snapshot does not rise exactly when the effective step
      mu x^H P x is in [0, 2] (or there was no output). */
  lemma OutputPowerFalls(w: Vec, a: Vec, x: Vec, mu: real)
    requires IsSteering(a) && UnitGain(a, w)
    ensures Power(Dot(Step(w, a, x, mu), x)) <= Power(Dot(w, x))
       <==> Power(Dot(w, x)) == 0.0 || 0.0 <= mu * Norm2(Project(a, x)) <= 2.0
  {
    hide Dot, Norm2, Power, Project, Adapt;
    StepScalesOutput(w, a, x, mu);
    var e, p := mu * Norm2(Project(a, x)), Power(Dot(w, x));
    assert Power(Dot(Step(w, a, x, mu), x)) == (1.0 - e) * (1.0 - e) * p by { PowerScale(1.0 - e, Dot(w, x)); }
    ContractionFactor(e, p);
  }

  lemma ContractionFactor(e: real, p: real)
    requires p >= 0.0
    ensures (1.0 - e) * (1.0 - e) * p <= p <==> p == 0.0 || 0.0 <= e <= 2.0
  {
    var k := e * (2.0 - e);
    assert (1.0 - e) * (1.0 - e) * p == p - k * p;
    if 0.0 <= e <= 2.0 {
      ProductSign(e, 2.0 - e);
      ProductSign(k, p);
    } else if e < 0.0 {
      ProductSign(-e, 2.0 - e);
      ProductSign(-k, p);
    } else {
      ProductSign(e, e - 2.0);
      ProductSign(-k, p);
    }
  }

  lemma ProductSign(x: real, y: real)
    requires x >= 0.0 && y >= 0.0
    ensures x * y >= 0.0
    ensures x > 0.0 && y > 0.0 ==> x * y > 0.0
  {
  }

  /** mu |x|^2 <= 2 is therefore a safe step for every target. */
  lemma SmallStepIsSafe(w: Vec, a: Vec, x: Vec, mu: real)
    requires IsSteering(a) && UnitGain(a, w)
    requires mu >= 0.0 && mu * Norm2(x) <= 2.0
    ensures Power(Dot(Step(w, a, x, mu), x)) <= Power(Dot(w, x))
  {
    hide Dot, Norm2, Power, Project, Adapt;
    OutputPowerFalls(w, a, x, mu);
    Pythagoras(a, x);
    var p, n := Norm2(Project(a, x)), Norm2(x);
    assert mu * p <= mu * n by { assert mu * (n - p) >= 0.0; }
  }
}
