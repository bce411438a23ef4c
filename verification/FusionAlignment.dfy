// What one update does to the attitude: the gyroscope turns it, and feedback turns it so that the
// measured direction and the reference it stands for come closer.
module FusionAlignment {
  import opened FusionMath
  import opened FusionAhrs

  // ---- Vector identities ------------------------------------------------------------------------

  lemma CrossIsOrthogonal(a: Vector, b: Vector)
    ensures VectorDotProduct(VectorCrossProduct(a, b), b) == 0.0
  {
  }

  lemma CrossShifts(a: Vector, b: Vector, c: Vector)
    ensures VectorDotProduct(a, VectorCrossProduct(b, c)) == VectorDotProduct(c, VectorCrossProduct(a, b))
  {
  }

  lemma PositiveProduct(x: real, y: real, a: real)
    requires x > 0.0 && y > 0.0 && a == x * y
    ensures a > 0.0
  {
  }

  // The product has a name of its own, as the solver rewrites a comparison of x * x with zero.
  lemma Square(x: real, a: real)
    requires a == x * x
    ensures a >= 0.0 && (x != 0.0 ==> a > 0.0)
  {
    if x > 0.0 {
      PositiveProduct(x, x, a);
    } else if x < 0.0 {
      assert a == -x * -x;
      PositiveProduct(-x, -x, a);
    } else {
      assert a == 0.0;
    }
  }

  lemma SumOfSquares(x: real, y: real, z: real)
    requires x >= 0.0 && y >= 0.0 && z >= 0.0
    ensures x + y + z >= 0.0 && (x > 0.0 || y > 0.0 || z > 0.0 ==> x + y + z > 0.0)
  {
  }

  lemma MagnitudeIsPositive(v: Vector)
    ensures VectorMagnitudeSquared(v) >= 0.0 && (v != ZERO ==> VectorMagnitudeSquared(v) > 0.0)
  {
    var a, b, c := v.x * v.x, v.y * v.y, v.z * v.z;
    Square(v.x, a);
    Square(v.y, b);
    Square(v.z, c);
    SumOfSquares(a, b, c);
    if v.x == 0.0 && v.y == 0.0 && v.z == 0.0 {
      assert v == ZERO;
    }
  }

  lemma ZeroMagnitude()
    ensures VectorMagnitudeSquared(ZERO) == 0.0
  {
  }

  lemma DotScales(a: Vector, b: Vector, k: real)
    ensures VectorDotProduct(a, VectorMultiplyScalar(b, k)) == k * VectorDotProduct(a, b)
  {
  }

  lemma Lagrange(a: Vector, b: Vector)
    ensures VectorMagnitudeSquared(VectorCrossProduct(a, b)) ==
            VectorMagnitudeSquared(a) * VectorMagnitudeSquared(b) - VectorDotProduct(a, b) * VectorDotProduct(a, b)
  {
  }

  // ---- One integration step ---------------------------------------------------------------------

  function Scaled(q: Quaternion, m: real): Quaternion {
    Quaternion(m * q.w, m * q.x, m * q.y, m * q.z)
  }

  // A vector fixed to the Earth, as a sensor in this attitude sees it.
  function SeenFrom(q: Quaternion, earth: Vector): Vector {
    MatrixMultiplyVector(Transpose(QuaternionToMatrix(q)), earth)
  }

  function Part(square: real, k: real, swept: real, along: real, a: real): real {
    k * (1.0 - square) + swept * 2.0 + a * (2.0 * along)
  }

  function Unscaled(square: real, w: Vector, g: Vector, along: real, swept: Vector): Vector {
    Vector(Part(square, g.x, swept.x, along, w.x), Part(square, g.y, swept.y, along, w.y),
           Part(square, g.z, swept.z, along, w.z))
  }

  function TurnedWith(s: real, square: real, w: Vector, g: Vector): Vector {
    VectorMultiplyScalar(Unscaled(square, w, g, VectorDotProduct(w, g), VectorCrossProduct(g, w)), s)
  }

  // What a vector g becomes when the sensor turns about w, where s (1 + w w) is one.
  function Turned(s: real, w: Vector, g: Vector): Vector {
    TurnedWith(s, VectorMagnitudeSquared(w), w, g)
  }

  predicate IsTurnedRow(s: real, square: real, a: real, b: real, c: real, p: real, q: real, r: real) {
    p == s - s * square + 2.0 * (s * a * a) && q == 2.0 * (s * a * b + s * c) && r == 2.0 * (s * a * c - s * b)
  }

  // One component, sorted by the components of g.
  lemma TurnedSorted(s: real, a: real, b: real, c: real, k: real, l: real, n: real, square: real, along: real,
                     p: real, q: real, r: real)
    requires along == a * k + b * l + c * n && IsTurnedRow(s, square, a, b, c, p, q, r)
    ensures Part(square, k, l * c - n * b, along, a) * s == p * k + q * l + r * n
  {
  }

  predicate IsTurned(s: real, square: real, w: Vector, m: Matrix) {
    && IsTurnedRow(s, square, w.x, w.y, w.z, m.xx, m.xy, m.xz)
    && IsTurnedRow(s, square, w.y, w.z, w.x, m.yy, m.yz, m.yx)
    && IsTurnedRow(s, square, w.z, w.x, w.y, m.zz, m.zx, m.zy)
  }

  lemma TurnedX(s: real, square: real, w: Vector, g: Vector, p: real, q: real, r: real)
    requires IsTurnedRow(s, square, w.x, w.y, w.z, p, q, r)
    ensures TurnedWith(s, square, w, g).x == p * g.x + q * g.y + r * g.z
  {
    TurnedSorted(s, w.x, w.y, w.z, g.x, g.y, g.z, square, VectorDotProduct(w, g), p, q, r);
  }

  lemma TurnedY(s: real, square: real, w: Vector, g: Vector, p: real, q: real, r: real)
    requires IsTurnedRow(s, square, w.y, w.z, w.x, p, q, r)
    ensures TurnedWith(s, square, w, g).y == p * g.y + q * g.z + r * g.x
  {
    TurnedSorted(s, w.y, w.z, w.x, g.y, g.z, g.x, square, VectorDotProduct(w, g), p, q, r);
  }

  lemma TurnedZ(s: real, square: real, w: Vector, g: Vector, p: real, q: real, r: real)
    requires IsTurnedRow(s, square, w.z, w.x, w.y, p, q, r)
    ensures TurnedWith(s, square, w, g).z == p * g.z + q * g.x + r * g.y
  {
    TurnedSorted(s, w.z, w.x, w.y, g.z, g.x, g.y, square, VectorDotProduct(w, g), p, q, r);
  }

  lemma TurnedIsImage(s: real, square: real, w: Vector, g: Vector, m: Matrix, t: Vector)
    requires IsTurned(s, square, w, m) && t == TurnedWith(s, square, w, g)
    ensures t == MatrixMultiplyVector(m, g)
  {
    TurnedX(s, square, w, g, m.xx, m.xy, m.xz);
    TurnedY(s, square, w, g, m.yy, m.yz, m.yx);
    TurnedZ(s, square, w, g, m.zz, m.zx, m.zy);
  }

  // s scales a step whose square is this to one.
  predicate IsScale(s: real, square: real) {
    s + s * square == 1.0
  }

  // The attitude that stands for the step alone.
  function StepOf(m: real, w: Vector): Quaternion {
    Scaled(Quaternion(1.0, w.x, w.y, w.z), m)
  }

  function StepProducts(s: real, w: Vector): Products {
    Products(s, s * w.x, s * w.y, s * w.z, s * w.x * w.x, s * w.x * w.y, s * w.x * w.z,
             s * w.y * w.y, s * w.y * w.z, s * w.z * w.z)
  }

  lemma ProductsOfStep(m: real, w: Vector)
    ensures var u := StepOf(m, w); ProductsOf(u.w, u.x, u.y, u.z) == StepProducts(m * m, w)
  {
  }

  function StepMatrix(s: real, w: Vector): Matrix {
    MatrixOf(StepProducts(s, w))
  }

  // The matrix of the step, given that it is normalised, row by row.
  lemma StepRowX(s: real, square: real, w: Vector)
    requires IsScale(s, square)
    ensures var m := Transpose(StepMatrix(s, w)); IsTurnedRow(s, square, w.x, w.y, w.z, m.xx, m.xy, m.xz)
  {
  }

  lemma StepRowY(s: real, square: real, w: Vector)
    requires IsScale(s, square)
    ensures var m := Transpose(StepMatrix(s, w)); IsTurnedRow(s, square, w.y, w.z, w.x, m.yy, m.yz, m.yx)
  {
    Commuted(s, w.x, w.y);
  }

  lemma StepRowZ(s: real, square: real, w: Vector)
    requires IsScale(s, square)
    ensures var m := Transpose(StepMatrix(s, w)); IsTurnedRow(s, square, w.z, w.x, w.y, m.zz, m.zx, m.zy)
  {
    Commuted(s, w.x, w.z);
    Commuted(s, w.y, w.z);
  }

  lemma Commuted(s: real, a: real, b: real)
    ensures s * a * b == s * b * a
  {
  }

  lemma ProductsTurn(s: real, square: real, w: Vector, g: Vector)
    requires IsScale(s, square)
    ensures MatrixMultiplyVector(Transpose(StepMatrix(s, w)), g) == TurnedWith(s, square, w, g)
  {
    StepRowX(s, square, w);
    StepRowY(s, square, w);
    StepRowZ(s, square, w);
    TurnedIsImage(s, square, w, g, Transpose(StepMatrix(s, w)), TurnedWith(s, square, w, g));
  }

  // Scaling is multiplication by a real number.
  lemma ScaledIsProduct(q: Quaternion, m: real)
    ensures Scaled(q, m) == QuaternionMultiply(q, Quaternion(m, 0.0, 0.0, 0.0))
  {
  }

  lemma NormOfScaled(q: Quaternion, m: real)
    ensures NormSquared(Scaled(q, m)) == NormSquared(q) * (m * m)
  {
    ScaledIsProduct(q, m);
    NormMultiplies(q, Quaternion(m, 0.0, 0.0, 0.0));
  }

  lemma ScaledProduct(q: Quaternion, p: Quaternion, m: real)
    ensures Scaled(QuaternionMultiply(q, p), m) == QuaternionMultiply(q, Scaled(p, m))
  {
    ScaledIsProduct(p, m);
    ScaledIsProduct(QuaternionMultiply(q, p), m);
    Associative(q, p, Quaternion(m, 0.0, 0.0, 0.0));
  }

  // Seen from a product of attitudes: first from one, then from the other.
  lemma SeenFromProduct(a: Quaternion, b: Quaternion, earth: Vector)
    requires Unit(a) && Unit(b)
    ensures SeenFrom(QuaternionMultiply(a, b), earth) == SeenFrom(b, SeenFrom(a, earth))
  {
    ConjugateIsInverse(a);
    ConjugateIsInverse(b);
    ConjugateOfProduct(a, b);
    ConjugateIsTranspose(a);
    ConjugateIsTranspose(b);
    ConjugateIsTranspose(QuaternionMultiply(a, b));
    ProductRotates(Conjugate(b), Conjugate(a), earth);
  }

  lemma StepIsUnit(q: Quaternion, w: Vector, m: real)
    requires Unit(q) && Unit(Scaled(QuaternionAdd(q, QuaternionMultiplyVector(q, w)), m))
    ensures Unit(StepOf(m, w)) && IsScale(m * m, VectorMagnitudeSquared(w))
    ensures Scaled(QuaternionAdd(q, QuaternionMultiplyVector(q, w)), m) == QuaternionMultiply(q, StepOf(m, w))
  {
    var p := Quaternion(1.0, w.x, w.y, w.z);
    IntegrationIsProduct(q, w);
    IntegrationNeverVanishes(q, w);
    NormOfScaled(QuaternionMultiply(q, p), m);
    NormOfScaled(p, m);
    NormOfStep(w);
    ScaledProduct(q, p, m);
    ScaleIs(m * m, NormSquared(p), VectorMagnitudeSquared(w), NormSquared(Scaled(p, m)));
  }

  lemma ScaleIs(s: real, norm: real, square: real, one: real)
    requires norm == 1.0 + square && norm * s == one == 1.0
    ensures IsScale(s, square)
  {
    assert norm * s == (1.0 + square) * s;
  }

  // A step over the half angle w, normalised, turns what is fixed to the Earth about w.
  lemma StepTurns(q: Quaternion, w: Vector, m: real, earth: Vector)
    requires Unit(q) && Unit(Scaled(QuaternionAdd(q, QuaternionMultiplyVector(q, w)), m))
    ensures SeenFrom(Scaled(QuaternionAdd(q, QuaternionMultiplyVector(q, w)), m), earth) ==
            Turned(m * m, w, SeenFrom(q, earth))
  {
    StepIsUnit(q, w, m);
    SeenFromProduct(q, StepOf(m, w), earth);
    ProductsOfStep(m, w);
    ProductsTurn(m * m, VectorMagnitudeSquared(w), w, SeenFrom(q, earth));
  }

  // ---- Gyroscope and feedback -------------------------------------------------------------------

  // Half the angle that one update turns by.
  function HalfAngle(halfGyroscope: Vector, feedback: Vector, gain: real, deltaTime: real): Vector {
    VectorMultiplyScalar(VectorAdd(halfGyroscope, VectorMultiplyScalar(feedback, gain)), deltaTime)
  }

  // The normaliser, at this quaternion, does no more than scale it to norm one.
  predicate ScalesBy(normalise: Quaternion -> Quaternion, q: Quaternion, m: real) {
    normalise(q) == Scaled(q, m) && Unit(normalise(q))
  }

  // Both references turn about the measured angle and the weighted feedback, in the sense in which a
  // sensor sees the Earth turn: from g towards the cross product of g and the angle.
  lemma ReferencesTurn(convention: Convention, q: Quaternion, halfGyroscope: Vector, feedback: Vector, gain: real,
                       deltaTime: real, normalise: Quaternion -> Quaternion, m: real)
    requires Unit(q) && ScalesBy(normalise, Integrated(q, halfGyroscope, feedback, gain, deltaTime), m)
    ensures var next := normalise(Integrated(q, halfGyroscope, feedback, gain, deltaTime));
            var w := HalfAngle(halfGyroscope, feedback, gain, deltaTime);
            && IsScale(m * m, VectorMagnitudeSquared(w))
            && HalfGravity(convention, next) == Turned(m * m, w, HalfGravity(convention, q))
            && HalfMagnetic(convention, next) == Turned(m * m, w, HalfMagnetic(convention, q))
  {
    var next := normalise(Integrated(q, halfGyroscope, feedback, gain, deltaTime));
    var w := HalfAngle(halfGyroscope, feedback, gain, deltaTime);
    StepIsUnit(q, w, m);
    StepTurns(q, w, m, EarthGravity(convention));
    StepTurns(q, w, m, EarthMagnetic(convention));
    TransposedGravity(convention, ProductsOf(q.w, q.x, q.y, q.z));
    TransposedMagnetic(convention, ProductsOf(q.w, q.x, q.y, q.z));
    TransposedGravity(convention, ProductsOf(next.w, next.x, next.y, next.z));
    TransposedMagnetic(convention, ProductsOf(next.w, next.x, next.y, next.z));
  }

  // Feedback is the cross product of sensor and reference, scaled by k.
  predicate Restores(sensor: Vector, reference: Vector, feedback: Vector, k: real) {
    k > 0.0 && feedback == VectorMultiplyScalar(VectorCrossProduct(sensor, reference), k)
  }

  lemma DotOfScaled(f: Vector, x: Vector, k: real)
    requires f == VectorMultiplyScalar(x, k)
    ensures VectorDotProduct(f, x) == k * VectorMagnitudeSquared(x)
  {
  }

  lemma Pull(sensor: Vector, reference: Vector, feedback: Vector, k: real)
    requires Restores(sensor, reference, feedback, k)
    ensures VectorDotProduct(sensor, VectorCrossProduct(reference, feedback)) ==
            k * VectorMagnitudeSquared(VectorCrossProduct(sensor, reference))
  {
    CrossShifts(sensor, reference, feedback);
    DotOfScaled(feedback, VectorCrossProduct(sensor, reference), k);
  }

  // Feedback pulls the reference towards the sensor, unless they are parallel.
  lemma FeedbackPulls(sensor: Vector, reference: Vector, feedback: Vector, k: real, pull: real, square: real)
    requires Restores(sensor, reference, feedback, k)
    requires pull == VectorDotProduct(sensor, VectorCrossProduct(reference, feedback))
    requires square == VectorMagnitudeSquared(VectorCrossProduct(sensor, reference))
    ensures pull == k * square && pull >= 0.0
    ensures pull > 0.0 <==> VectorCrossProduct(sensor, reference) != ZERO
  {
    Pull(sensor, reference, feedback, k);
    SquareOf(VectorCrossProduct(sensor, reference), square);
    if square > 0.0 {
      PositiveProduct(k, square, pull);
    }
  }

  lemma SquareOf(v: Vector, square: real)
    requires square == VectorMagnitudeSquared(v)
    ensures square >= 0.0 && (square > 0.0 <==> v != ZERO)
  {
    MagnitudeIsPositive(v);
    if v == ZERO {
      ZeroMagnitude();
    }
  }

  // ---- How far an update aligns -----------------------------------------------------------------

  lemma DotAdds(a: Vector, b: Vector, c: Vector)
    ensures VectorDotProduct(a, VectorAdd(b, c)) == VectorDotProduct(a, b) + VectorDotProduct(a, c)
  {
  }

  lemma UnscaledIsSum(square: real, w: Vector, g: Vector, along: real, swept: Vector)
    ensures Unscaled(square, w, g, along, swept) ==
            VectorAdd(VectorAdd(VectorMultiplyScalar(g, 1.0 - square), VectorMultiplyScalar(swept, 2.0)),
                      VectorMultiplyScalar(w, 2.0 * along))
  {
  }

  lemma DotOfUnscaled(square: real, w: Vector, g: Vector, d: Vector, along: real, swept: Vector)
    ensures VectorDotProduct(d, Unscaled(square, w, g, along, swept)) ==
            (1.0 - square) * VectorDotProduct(d, g) + 2.0 * VectorDotProduct(d, swept) +
            2.0 * along * VectorDotProduct(d, w)
  {
    var a, b, c := VectorMultiplyScalar(g, 1.0 - square), VectorMultiplyScalar(swept, 2.0),
                   VectorMultiplyScalar(w, 2.0 * along);
    UnscaledIsSum(square, w, g, along, swept);
    DotAdds(d, VectorAdd(a, b), c);
    DotAdds(d, a, b);
    DotScales(d, g, 1.0 - square);
    DotScales(d, swept, 2.0);
    DotScales(d, w, 2.0 * along);
  }

  // The dot product with a sensor, of a reference that has turned.
  lemma DotOfTurned(s: real, square: real, w: Vector, g: Vector, d: Vector, along: real, swept: Vector,
                    c: real, ds: real, dw: real)
    returns (inner: real)
    requires along == VectorDotProduct(w, g) && swept == VectorCrossProduct(g, w)
    requires c == VectorDotProduct(d, g) && ds == VectorDotProduct(d, swept) && dw == VectorDotProduct(d, w)
    ensures inner == (1.0 - square) * c + 2.0 * ds + 2.0 * along * dw
    ensures VectorDotProduct(d, TurnedWith(s, square, w, g)) == s * inner
  {
    var v := Unscaled(square, w, g, along, swept);
    DotOfUnscaled(square, w, g, d, along, swept);
    DotScales(d, v, s);
    inner := VectorDotProduct(d, v);
  }

  lemma SameTimes(a: real, b: real, c: real)
    requires b == c
    ensures a * b == a * c
  {
  }

  lemma Expanded(s: real, square: real, c: real, p: real)
    ensures s * ((1.0 - square) * c + 2.0 * p) - c * (s + s * square) == 2.0 * (s * p) - 2.0 * (s * c * square)
  {
  }

  lemma Factored(s: real, t: real, l: real, c: real)
    ensures 2.0 * (s * (t * l)) - 2.0 * (s * c * (t * t * l)) == 2.0 * (s * (t * (l * (1.0 - t * c))))
  {
  }

  // Scalars: c the dot product before, l the square of the cross product, t the half angle over it.
  lemma Gained(s: real, t: real, l: real, c: real, square: real, inner: real, after: real)
    requires IsScale(s, square) && square == t * t * l && after == s * inner
    requires inner == (1.0 - square) * c + 2.0 * (t * l)
    ensures after - c == 2.0 * (s * (t * (l * (1.0 - t * c))))
  {
    SameTimes(s, inner, (1.0 - square) * c + 2.0 * (t * l));
    SameTimes(c, s + s * square, 1.0);
    Expanded(s, square, c, t * l);
    SameTimes(s * c, square, t * t * l);
    Factored(s, t, l, c);
  }

  lemma SquareOfScaled(w: Vector, x: Vector, t: real, l: real, square: real)
    requires w == VectorMultiplyScalar(x, t)
    requires l == VectorMagnitudeSquared(x) && square == VectorMagnitudeSquared(w)
    ensures square == t * t * l
  {
    DotOfScaled(w, x, t);
    DotScales(w, x, t);
    DotIsSquare(w);
    assert t * (t * l) == t * t * l;
  }

  lemma DotCommutes(a: Vector, b: Vector)
    ensures VectorDotProduct(a, b) == VectorDotProduct(b, a)
  {
  }

  lemma DotIsSquare(v: Vector)
    ensures VectorDotProduct(v, v) == VectorMagnitudeSquared(v)
  {
  }

  lemma NothingAlong(w: Vector, x: Vector, d: Vector, g: Vector, t: real)
    requires x == VectorCrossProduct(d, g) && w == VectorMultiplyScalar(x, t)
    ensures VectorDotProduct(w, g) == 0.0
  {
    CrossIsOrthogonal(d, g);
    DotScales(g, x, t);
    DotCommutes(g, w);
    DotCommutes(g, x);
    assert t * VectorDotProduct(g, x) == t * 0.0;
  }

  lemma SweptTowards(w: Vector, x: Vector, d: Vector, g: Vector, t: real, l: real, ds: real)
    requires x == VectorCrossProduct(d, g) && w == VectorMultiplyScalar(x, t)
    requires l == VectorMagnitudeSquared(x) && ds == VectorDotProduct(d, VectorCrossProduct(g, w))
    ensures ds == t * l
  {
    CrossShifts(d, g, w);
    DotOfScaled(w, x, t);
  }

  lemma InnerIs(inner: real, square: real, c: real, l: real, t: real, along: real, swept: real, dw: real)
    requires inner == (1.0 - square) * c + 2.0 * swept + 2.0 * along * dw
    requires square == t * t * l && along == 0.0 && swept == t * l
    ensures inner == (1.0 - square) * c + 2.0 * (t * l)
  {
  }

  // A reference g that turns about t times its cross product with the sensor d.
  lemma GainOfTurn(s: real, t: real, d: Vector, g: Vector, c: real, l: real, after: real)
    requires c == VectorDotProduct(d, g) && l == VectorMagnitudeSquared(VectorCrossProduct(d, g))
    requires var w := VectorMultiplyScalar(VectorCrossProduct(d, g), t);
             IsScale(s, VectorMagnitudeSquared(w)) && after == VectorDotProduct(d, Turned(s, w, g))
    ensures after - c == 2.0 * (s * (t * (l * (1.0 - t * c))))
  {
    var x := VectorCrossProduct(d, g);
    var w := VectorMultiplyScalar(x, t);
    var square, along, swept := VectorMagnitudeSquared(w), VectorDotProduct(w, g), VectorCrossProduct(g, w);
    var ds, dw := VectorDotProduct(d, swept), VectorDotProduct(d, w);
    SquareOfScaled(w, x, t, l, square);
    NothingAlong(w, x, d, g, t);
    SweptTowards(w, x, d, g, t, l, ds);
    var inner := DotOfTurned(s, square, w, g, d, along, swept, c, ds, dw);
    InnerIs(inner, square, c, l, t, along, ds, dw);
    Gained(s, t, l, c, square, inner, after);
  }

  lemma SignOfGain(s: real, t: real, l: real, c: real, gain: real)
    requires s > 0.0 && t > 0.0 && l >= 0.0 && gain == 2.0 * (s * (t * (l * (1.0 - t * c))))
    ensures gain > 0.0 <==> l > 0.0 && t * c < 1.0
  {
    var u := 1.0 - t * c;
    SignOfProduct(l, u, l * u);
    SignOfScaled(t, l * u, t * (l * u));
    SignOfScaled(s, t * (l * u), s * (t * (l * u)));
  }

  lemma SignOfProduct(l: real, u: real, p: real)
    requires l >= 0.0 && p == l * u
    ensures p > 0.0 <==> l > 0.0 && u > 0.0
  {
    if l > 0.0 {
      SignOfScaled(l, u, p);
    } else {
      SameTimes(u, l, 0.0);
    }
  }

  lemma SignOfScaled(t: real, u: real, p: real)
    requires t > 0.0 && p == t * u
    ensures p > 0.0 <==> u > 0.0
  {
    if u > 0.0 {
      PositiveProduct(t, u, p);
    } else if u < 0.0 {
      PositiveProduct(t, -u, -p);
    }
  }

  // Past a right angle the error is made of full length; k is the factor.
  predicate MakesLong(sensor: Vector, reference: Vector, normalise: Normaliser, k: real) {
    if VectorDotProduct(sensor, reference) < 0.0 then
      k > 0.0 && normalise(VectorCrossProduct(sensor, reference)) ==
                 VectorMultiplyScalar(VectorCrossProduct(sensor, reference), k)
    else k == 1.0
  }

  lemma FeedbackRestores(sensor: Vector, reference: Vector, normalise: Normaliser, k: real)
    requires MakesLong(sensor, reference, normalise, k)
    ensures Restores(sensor, reference, Feedback(sensor, reference, normalise), k)
  {
    TimesOne(VectorCrossProduct(sensor, reference));
  }

  lemma TimesOne(v: Vector)
    ensures VectorMultiplyScalar(v, 1.0) == v
  {
  }

  lemma ScaledTwice(v: Vector, a: real, b: real)
    ensures VectorMultiplyScalar(VectorMultiplyScalar(v, a), b) == VectorMultiplyScalar(v, a * b)
  {
  }

  lemma ZeroPlus(v: Vector)
    ensures VectorAdd(ZERO, v) == v
  {
  }

  lemma StillHalfAngle(x: Vector, k: real, feedback: Vector, gain: real, deltaTime: real, rate: real)
    requires feedback == VectorMultiplyScalar(x, k) && rate == gain * deltaTime
    ensures HalfAngle(ZERO, feedback, gain, deltaTime) == VectorMultiplyScalar(x, k * rate)
  {
    ZeroPlus(VectorMultiplyScalar(feedback, gain));
    ScaledTwice(feedback, gain, deltaTime);
    ScaledTwice(x, k, rate);
  }

  lemma ScaleIsPositive(m: real, s: real, square: real)
    requires s == m * m && IsScale(s, square)
    ensures s > 0.0
  {
    Square(m, s);
    if s == 0.0 {
      SameTimes(square, s, 0.0);
    }
  }

  // How long the error is made does not matter: past a right angle every length aligns.
  lemma LengthDoesNotMatter(k: real, rate: real, c: real, t: real)
    requires k > 0.0 && rate > 0.0 && (c >= 0.0 ==> k == 1.0) && t == k * rate
    ensures t > 0.0 && (t * c < 1.0 <==> rate * c < 1.0)
  {
    PositiveProduct(k, rate, t);
    if c < 0.0 {
      PositiveProduct(t, -c, -(t * c));
      PositiveProduct(rate, -c, -(rate * c));
    } else {
      SameTimes(rate, k, 1.0);
      SameSide(t, rate, c);
    }
  }

  lemma SameSide(t: real, rate: real, c: real)
    requires t == rate
    ensures t * c < 1.0 <==> rate * c < 1.0
  {
    var a, b := t * c, rate * c;
    SameTimes(c, t, rate);
    assert a == b;
  }

  // A step with feedback and no rotation.
  predicate IsStep(reference: Vector, feedback: Vector, gain: real, deltaTime: real, m: real, next: Vector) {
    var w := HalfAngle(ZERO, feedback, gain, deltaTime);
    IsScale(m * m, VectorMagnitudeSquared(w)) && next == Turned(m * m, w, reference)
  }

  // The reference comes closer to the sensor exactly if they are not parallel and the rate of feedback
  // is too low to turn the one past the other.
  predicate AlignsExactly(sensor: Vector, reference: Vector, next: Vector, rate: real) {
    RisesExactly(VectorDotProduct(sensor, reference), VectorDotProduct(sensor, next), rate,
                 VectorCrossProduct(sensor, reference) != ZERO)
  }

  predicate RisesExactly(before: real, after: real, rate: real, apart: bool) {
    after > before <==> apart && rate * before < 1.0
  }

  lemma Rises(s: real, k: real, t: real, l: real, before: real, after: real, rate: real, apart: bool)
    requires s > 0.0 && l >= 0.0 && (l > 0.0 <==> apart) && k > 0.0 && rate > 0.0 && t == k * rate
    requires before >= 0.0 ==> k == 1.0
    requires after - before == 2.0 * (s * (t * (l * (1.0 - t * before))))
    ensures RisesExactly(before, after, rate, apart)
  {
    LengthDoesNotMatter(k, rate, before, t);
    SignOfGain(s, t, l, before, after - before);
  }

  lemma StepAligns(sensor: Vector, reference: Vector, normalise: Normaliser, k: real, gain: real, deltaTime: real,
                   m: real, next: Vector, rate: real)
    requires MakesLong(sensor, reference, normalise, k) && rate == gain * deltaTime && rate > 0.0
    requires IsStep(reference, Feedback(sensor, reference, normalise), gain, deltaTime, m, next)
    ensures AlignsExactly(sensor, reference, next, rate)
  {
    var feedback, x := Feedback(sensor, reference, normalise), VectorCrossProduct(sensor, reference);
    var c, l, after := VectorDotProduct(sensor, reference), VectorMagnitudeSquared(x), VectorDotProduct(sensor, next);
    var s, t := m * m, k * rate;
    FeedbackRestores(sensor, reference, normalise, k);
    StillHalfAngle(x, k, feedback, gain, deltaTime, rate);
    ScaleIsPositive(m, s, VectorMagnitudeSquared(HalfAngle(ZERO, feedback, gain, deltaTime)));
    GainOfTurn(s, t, sensor, reference, c, l, after);
    SquareOf(x, l);
    Rises(s, k, t, l, c, after, rate, x != ZERO);
  }

  // An update without rotation brings the expected gravity closer to the measured one.
  lemma AccelerometerAligns(convention: Convention, q: Quaternion, measurement: Vector, normalise: Normaliser, k: real,
                            gain: real, deltaTime: real, normaliseAttitude: Quaternion -> Quaternion, m: real)
    requires Unit(q) && gain * deltaTime > 0.0
    requires MakesLong(normalise(measurement), HalfGravity(convention, q), normalise, k)
    requires var feedback := AccelerometerFeedback(convention, q, measurement, normalise);
             ScalesBy(normaliseAttitude, Integrated(q, ZERO, feedback, gain, deltaTime), m)
    ensures var feedback := AccelerometerFeedback(convention, q, measurement, normalise);
            var next := normaliseAttitude(Integrated(q, ZERO, feedback, gain, deltaTime));
            AlignsExactly(normalise(measurement), HalfGravity(convention, q),
                          HalfGravity(convention, next), gain * deltaTime)
  {
    var feedback := AccelerometerFeedback(convention, q, measurement, normalise);
    var next := normaliseAttitude(Integrated(q, ZERO, feedback, gain, deltaTime));
    ReferencesTurn(convention, q, ZERO, feedback, gain, deltaTime, normaliseAttitude, m);
    StepAligns(normalise(measurement), HalfGravity(convention, q), normalise, k, gain, deltaTime, m,
               HalfGravity(convention, next), gain * deltaTime);
  }

  // The magnetometer's sensor direction is at right angles to gravity and to the magnetic field.
  function WestOf(convention: Convention, q: Quaternion, measurement: Vector, normalise: Normaliser): Vector {
    normalise(VectorCrossProduct(HalfGravity(convention, q), measurement))
  }

  lemma MagnetometerAligns(convention: Convention, q: Quaternion, measurement: Vector, normalise: Normaliser, k: real,
                           gain: real, deltaTime: real, normaliseAttitude: Quaternion -> Quaternion, m: real)
    requires Unit(q) && gain * deltaTime > 0.0
    requires MakesLong(WestOf(convention, q, measurement, normalise), HalfMagnetic(convention, q), normalise, k)
    requires var feedback := MagnetometerFeedback(convention, q, measurement, normalise);
             ScalesBy(normaliseAttitude, Integrated(q, ZERO, feedback, gain, deltaTime), m)
    ensures var feedback := MagnetometerFeedback(convention, q, measurement, normalise);
            var next := normaliseAttitude(Integrated(q, ZERO, feedback, gain, deltaTime));
            AlignsExactly(WestOf(convention, q, measurement, normalise), HalfMagnetic(convention, q),
                          HalfMagnetic(convention, next), gain * deltaTime)
  {
    var feedback := MagnetometerFeedback(convention, q, measurement, normalise);
    var next := normaliseAttitude(Integrated(q, ZERO, feedback, gain, deltaTime));
    ReferencesTurn(convention, q, ZERO, feedback, gain, deltaTime, normaliseAttitude, m);
    StepAligns(WestOf(convention, q, measurement, normalise), HalfMagnetic(convention, q), normalise, k, gain,
               deltaTime, m, HalfMagnetic(convention, next), gain * deltaTime);
  }

  lemma ReferencesAreHalf(convention: Convention, q: Quaternion)
    requires Unit(q)
    ensures VectorMagnitudeSquared(HalfGravity(convention, q)) == 0.25
    ensures VectorMagnitudeSquared(HalfMagnetic(convention, q)) == 0.25
  {
    DirectionsAreFixedToEarth(convention, q);
    RotationKeepsDotProduct(q, HalfGravity(convention, q), HalfGravity(convention, q));
    RotationKeepsDotProduct(q, HalfMagnetic(convention, q), HalfMagnetic(convention, q));
    DotIsSquare(HalfGravity(convention, q));
    DotIsSquare(HalfMagnetic(convention, q));
  }

  lemma BelowHalf(c: real, square: real, l: real)
    requires square == c * c && l == 1.0 * 0.25 - square && l > 0.0
    ensures c < 0.5
  {
    var d := (c - 0.5) * (c - 0.5);
    Square(c - 0.5, d);
    assert d == square - c + 0.25;
  }

  lemma BelowOne(rate: real, c: real)
    requires 0.0 < rate <= 2.0 && c < 0.5
    ensures rate * c < 1.0
  {
    PositiveProduct(rate, 0.5 - c, rate * (0.5 - c));
  }

  // With a sensor of length one, feedback at a rate up to two aligns from every direction but the
  // parallel ones.
  lemma MildFeedbackAligns(sensor: Vector, reference: Vector, next: Vector, rate: real)
    requires VectorMagnitudeSquared(sensor) == 1.0 && VectorMagnitudeSquared(reference) == 0.25
    requires AlignsExactly(sensor, reference, next, rate) && 0.0 < rate <= 2.0
    ensures VectorDotProduct(sensor, next) > VectorDotProduct(sensor, reference) <==>
            VectorCrossProduct(sensor, reference) != ZERO
  {
    var c, x := VectorDotProduct(sensor, reference), VectorCrossProduct(sensor, reference);
    if x != ZERO {
      MagnitudeIsPositive(x);
      Lagrange(sensor, reference);
      BelowHalf(c, c * c, VectorMagnitudeSquared(x));
      BelowOne(rate, c);
    }
  }

  // ---- At rest ----------------------------------------------------------------------------------

  lemma ParallelIsAtRest(sensor: Vector, reference: Vector, t: real, normalise: Normaliser)
    requires sensor == VectorMultiplyScalar(reference, t) && t > 0.0
    ensures Feedback(sensor, reference, normalise) == ZERO
  {
    DotOfScaled(sensor, reference, t);
    SquareOf(reference, VectorMagnitudeSquared(reference));
    if VectorMagnitudeSquared(reference) > 0.0 {
      PositiveProduct(t, VectorMagnitudeSquared(reference), VectorDotProduct(sensor, reference));
    }
    NoCrossProduct(reference.x, reference.y, reference.z, t);
  }

  lemma NoCrossProduct(x: real, y: real, z: real, t: real)
    ensures (x * t) * y == (y * t) * x && (y * t) * z == (z * t) * y && (z * t) * x == (x * t) * z
  {
  }

  lemma RowScales(a: real, b: real, c: real, v: Vector, r: real, s: real)
    requires IsRow(a, b, c, v, r)
    ensures IsRow(a, b, c, VectorMultiplyScalar(v, s), r * s)
  {
    assert a * (v.x * s) + b * (v.y * s) + c * (v.z * s) == (a * v.x + b * v.y + c * v.z) * s;
  }

  lemma ImageScales(m: Matrix, v: Vector, s: real, r: Vector)
    requires r == MatrixMultiplyVector(m, v)
    ensures MatrixMultiplyVector(m, VectorMultiplyScalar(v, s)) == VectorMultiplyScalar(r, s)
  {
    ImageHasRows(m, v, r);
    RowScales(m.xx, m.xy, m.xz, v, r.x, s);
    RowScales(m.yx, m.yy, m.yz, v, r.y, s);
    RowScales(m.zx, m.zy, m.zz, v, r.z, s);
    ImageHasRows(m, VectorMultiplyScalar(v, s), VectorMultiplyScalar(r, s));
  }

  lemma SeenScales(q: Quaternion, v: Vector, s: real)
    ensures SeenFrom(q, VectorMultiplyScalar(v, s)) == VectorMultiplyScalar(SeenFrom(q, v), s)
  {
    ImageScales(Transpose(QuaternionToMatrix(q)), v, s, SeenFrom(q, v));
  }

  lemma SeenKeepsCrossProduct(q: Quaternion, u: Vector, v: Vector)
    requires Unit(q)
    ensures VectorCrossProduct(SeenFrom(q, u), SeenFrom(q, v)) == SeenFrom(q, VectorCrossProduct(u, v))
  {
    ConjugateIsInverse(q);
    ConjugateIsTranspose(q);
    RotationKeepsCrossProduct(Conjugate(q), u, v);
  }

  // A magnetic field that points north and up or down.
  function EarthField(convention: Convention, north: real, up: real): Vector {
    match convention
    case Nwu => Vector(north, 0.0, up)
    case Enu => Vector(0.0, north, up)
    case Ned => Vector(north, 0.0, -up)
  }

  lemma WestOfField(convention: Convention, north: real, up: real)
    ensures VectorCrossProduct(EarthGravity(convention), EarthField(convention, north, up)) ==
            VectorMultiplyScalar(EarthMagnetic(convention), north)
  {
  }

  predicate Lengthens(normalise: Normaliser, v: Vector, k: real) {
    k > 0.0 && normalise(v) == VectorMultiplyScalar(v, k)
  }

  // In the true attitude, what the sensors measure is what is expected, and there is no feedback:
  // the accelerometer shows the reaction to gravity, the magnetometer a field towards the north.
  lemma TrueAttitudeIsAtRest(convention: Convention, q: Quaternion, force: real, north: real, up: real,
                             normalise: Normaliser, j: real, k: real)
    requires Unit(q) && force > 0.0 && north > 0.0
    requires Lengthens(normalise, SeenFrom(q, VectorMultiplyScalar(EarthGravity(convention), force)), j)
    requires Lengthens(normalise, VectorCrossProduct(HalfGravity(convention, q),
                                                     SeenFrom(q, EarthField(convention, north, up))), k)
    ensures AccelerometerFeedback(convention, q, SeenFrom(q, VectorMultiplyScalar(EarthGravity(convention), force)),
                                  normalise) == ZERO
    ensures MagnetometerFeedback(convention, q, SeenFrom(q, EarthField(convention, north, up)), normalise) == ZERO
  {
    var gravity, west := HalfGravity(convention, q), HalfMagnetic(convention, q);
    var field := EarthField(convention, north, up);
    TransposedGravity(convention, ProductsOf(q.w, q.x, q.y, q.z));
    TransposedMagnetic(convention, ProductsOf(q.w, q.x, q.y, q.z));
    SeenScales(q, EarthGravity(convention), force);
    ScaledTwice(gravity, force, j);
    PositiveProduct(force, j, force * j);
    ParallelIsAtRest(VectorMultiplyScalar(gravity, force * j), gravity, force * j, normalise);
    SeenKeepsCrossProduct(q, EarthGravity(convention), field);
    WestOfField(convention, north, up);
    SeenScales(q, EarthMagnetic(convention), north);
    ScaledTwice(west, north, k);
    PositiveProduct(north, k, north * k);
    ParallelIsAtRest(VectorMultiplyScalar(west, north * k), west, north * k, normalise);
  }
}
