// Attitude estimation: which way the accelerations point, and when a disturbed sensor is ignored.
module FusionAhrs {
  import opened Basics
  import opened FusionMath
  import opened FusionRecovery

  datatype Convention = Nwu | Enu | Ned

  // Both in terms of the products of the attitude's elements.
  function GravityOf(convention: Convention, p: Products): Vector {
    match convention
    case Nwu | Enu => Vector(p.xz - p.wy, p.yz + p.wx, p.ww - 0.5 + p.zz)
    case Ned => Vector(p.wy - p.xz, -1.0 * (p.yz + p.wx), 0.5 - p.ww - p.zz)
  }

  function MagneticOf(convention: Convention, p: Products): Vector {
    match convention
    case Nwu => Vector(p.xy + p.wz, p.ww - 0.5 + p.yy, p.yz - p.wx)
    case Enu => Vector(0.5 - p.ww - p.xx, p.wz - p.xy, -1.0 * (p.xz + p.wy))
    case Ned => Vector(-1.0 * (p.xy + p.wz), 0.5 - p.ww - p.yy, p.wx - p.yz)
  }

  function HalfGravity(convention: Convention, q: Quaternion): Vector {
    GravityOf(convention, ProductsOf(q.w, q.x, q.y, q.z))
  }

  function HalfMagnetic(convention: Convention, q: Quaternion): Vector {
    MagneticOf(convention, ProductsOf(q.w, q.x, q.y, q.z))
  }

  function WithoutGravity(convention: Convention, p: Products, accelerometer: Vector): Vector {
    var gravity := Vector(2.0 * (p.xz - p.wy), 2.0 * (p.yz + p.wx), 2.0 * (p.ww - 0.5 + p.zz));
    match convention
    case Nwu | Enu => VectorSubtract(accelerometer, gravity)
    case Ned => VectorAdd(accelerometer, gravity)
  }

  function LinearAcceleration(convention: Convention, q: Quaternion, accelerometer: Vector): Vector {
    WithoutGravity(convention, ProductsOf(q.w, q.x, q.y, q.z), accelerometer)
  }

  function TwiceRow(a: real, b: real, c: real, v: Vector): real {
    2.0 * (a * v.x + b * v.y + c * v.z)
  }

  function EarthAcceleration(convention: Convention, q: Quaternion, a: Vector): Vector {
    var h := HalfMatrix(q.w, q.x, q.y, q.z);
    var earth := Vector(TwiceRow(h.xx, h.xy, h.xz, a), TwiceRow(h.yx, h.yy, h.yz, a), TwiceRow(h.zx, h.zy, h.zz, a));
    match convention
    case Nwu | Enu => earth.(z := earth.z - 1.0)
    case Ned => earth.(z := earth.z + 1.0)
  }

  // Normalisation divides by a square root; it is a parameter here.
  type Normaliser = Vector -> Vector

  function Feedback(sensor: Vector, reference: Vector, normalise: Normaliser): Vector {
    if VectorDotProduct(sensor, reference) < 0.0 then normalise(VectorCrossProduct(sensor, reference))
    else VectorCrossProduct(sensor, reference)
  }

  const ZERO := Vector(0.0, 0.0, 0.0)

  function AccelerometerFeedback(convention: Convention, q: Quaternion, measurement: Vector,
                                 normalise: Normaliser): Vector {
    Feedback(normalise(measurement), HalfGravity(convention, q), normalise)
  }

  function MagnetometerFeedback(convention: Convention, q: Quaternion, measurement: Vector,
                                normalise: Normaliser): Vector {
    Feedback(normalise(VectorCrossProduct(HalfGravity(convention, q), measurement)),
             HalfMagnetic(convention, q), normalise)
  }

  // The attitude before normalisation: gyroscope and weighted feedback integrated over one step.
  function Integrated(q: Quaternion, halfGyroscope: Vector, feedback: Vector, gain: real, deltaTime: real): Quaternion {
    var adjusted := VectorAdd(halfGyroscope, VectorMultiplyScalar(feedback, gain));
    QuaternionAdd(q, QuaternionMultiplyVector(q, VectorMultiplyScalar(adjusted, deltaTime)))
  }

  // A normaliser that does its job.
  ghost predicate Normalises(normalise: Quaternion -> Quaternion) {
    forall q :: NormSquared(q) > 0.0 ==> Unit(normalise(q))
  }

  lemma IntegratedIsNormalised(q: Quaternion, halfGyroscope: Vector, feedback: Vector, gain: real, deltaTime: real,
                               normalise: Quaternion -> Quaternion)
    requires Unit(q) && Normalises(normalise)
    ensures Unit(normalise(Integrated(q, halfGyroscope, feedback, gain, deltaTime)))
  {
    var adjusted := VectorAdd(halfGyroscope, VectorMultiplyScalar(feedback, gain));
    IntegrationNeverVanishes(q, VectorMultiplyScalar(adjusted, deltaTime));
  }

  // ---- Directions and accelerations ----------------------------------------------------------

  // The Earth directions, scaled by 0.5, that gravity and the magnetic field are compared with.
  function EarthGravity(convention: Convention): Vector {
    if convention == Ned then Vector(0.0, 0.0, -0.5) else Vector(0.0, 0.0, 0.5)
  }

  function EarthMagnetic(convention: Convention): Vector {
    match convention
    case Nwu => Vector(0.0, 0.5, 0.0)
    case Enu => Vector(-0.5, 0.0, 0.0)
    case Ned => Vector(0.0, -0.5, 0.0)
  }

  lemma TransposedGravity(convention: Convention, p: Products)
    ensures GravityOf(convention, p) == MatrixMultiplyVector(Transpose(MatrixOf(p)), EarthGravity(convention))
  {
  }

  lemma TransposedMagnetic(convention: Convention, p: Products)
    ensures MagneticOf(convention, p) == MatrixMultiplyVector(Transpose(MatrixOf(p)), EarthMagnetic(convention))
  {
  }

  lemma DirectionsAreFixedToEarth(convention: Convention, q: Quaternion)
    requires Unit(q)
    ensures MatrixMultiplyVector(QuaternionToMatrix(q), HalfGravity(convention, q)) == EarthGravity(convention)
    ensures MatrixMultiplyVector(QuaternionToMatrix(q), HalfMagnetic(convention, q)) == EarthMagnetic(convention)
  {
    TransposedGravity(convention, ProductsOf(q.w, q.x, q.y, q.z));
    TransposeUndoes(q, EarthGravity(convention));
    TransposedMagnetic(convention, ProductsOf(q.w, q.x, q.y, q.z));
    TransposeUndoes(q, EarthMagnetic(convention));
  }

  lemma GravityRemovedFrom(convention: Convention, p: Products, a: Vector)
    ensures
      var gravity := MatrixMultiplyVector(Transpose(MatrixOf(p)), UP);
      WithoutGravity(convention, p, a) ==
      if convention == Ned then VectorAdd(a, gravity) else VectorSubtract(a, gravity)
  {
  }

  lemma GravityRemovedInSensorFrame(convention: Convention, q: Quaternion, a: Vector)
    ensures
      var gravity := MatrixMultiplyVector(Transpose(QuaternionToMatrix(q)), UP);
      LinearAcceleration(convention, q, a) ==
      if convention == Ned then VectorAdd(a, gravity) else VectorSubtract(a, gravity)
  {
    GravityRemovedFrom(convention, ProductsOf(q.w, q.x, q.y, q.z), a);
  }

  predicate IsRow(a: real, b: real, c: real, v: Vector, r: real) {
    r == a * v.x + b * v.y + c * v.z
  }

  lemma ImageHasRows(m: Matrix, v: Vector, r: Vector)
    ensures r == MatrixMultiplyVector(m, v) <==>
            IsRow(m.xx, m.xy, m.xz, v, r.x) && IsRow(m.yx, m.yy, m.yz, v, r.y) && IsRow(m.zx, m.zy, m.zz, v, r.z)
  {
  }

  lemma TwiceRowIsRow(a: real, b: real, c: real, d: real, e: real, f: real, v: Vector, r: real)
    requires d == 2.0 * a && e == 2.0 * b && f == 2.0 * c && r == TwiceRow(a, b, c, v)
    ensures IsRow(d, e, f, v, r)
  {
    assert d * v.x == 2.0 * a * v.x;
    assert e * v.y == 2.0 * b * v.y;
    assert f * v.z == 2.0 * c * v.z;
  }

  lemma EarthRows(h: Matrix, m: Matrix, v: Vector, r: Vector)
    requires IsTwice(m, h)
    requires r == Vector(TwiceRow(h.xx, h.xy, h.xz, v), TwiceRow(h.yx, h.yy, h.yz, v), TwiceRow(h.zx, h.zy, h.zz, v))
    ensures r == MatrixMultiplyVector(m, v)
  {
    TwiceRowIsRow(h.xx, h.xy, h.xz, m.xx, m.xy, m.xz, v, r.x);
    TwiceRowIsRow(h.yx, h.yy, h.yz, m.yx, m.yy, m.yz, v, r.y);
    TwiceRowIsRow(h.zx, h.zy, h.zz, m.zx, m.zy, m.zz, v, r.z);
    ImageHasRows(m, v, r);
  }

  lemma GravityRemovedInEarthFrame(convention: Convention, q: Quaternion, a: Vector)
    ensures
      var earth := MatrixMultiplyVector(QuaternionToMatrix(q), a);
      EarthAcceleration(convention, q, a) ==
      if convention == Ned then VectorAdd(earth, UP) else VectorSubtract(earth, UP)
  {
    var h := HalfMatrix(q.w, q.x, q.y, q.z);
    var r := Vector(TwiceRow(h.xx, h.xy, h.xz, a), TwiceRow(h.yx, h.yy, h.yz, a), TwiceRow(h.zx, h.zy, h.zz, a));
    MatrixIsTwiceHalf(q);
    EarthRows(h, QuaternionToMatrix(q), a, r);
  }

  lemma RowIsLinear(a: real, b: real, c: real, u: Vector, v: Vector, r: real, s: real)
    requires IsRow(a, b, c, u, r) && IsRow(a, b, c, v, s)
    ensures IsRow(a, b, c, VectorAdd(u, v), r + s)
  {
    var w := VectorAdd(u, v);
    assert a * w.x == a * (u.x + v.x);
    assert b * w.y == b * (u.y + v.y);
    assert c * w.z == c * (u.z + v.z);
  }

  lemma MatrixIsLinear(m: Matrix, u: Vector, v: Vector)
    ensures MatrixMultiplyVector(m, VectorAdd(u, v)) ==
            VectorAdd(MatrixMultiplyVector(m, u), MatrixMultiplyVector(m, v))
  {
    var r, s := MatrixMultiplyVector(m, u), MatrixMultiplyVector(m, v);
    ImageHasRows(m, u, r);
    ImageHasRows(m, v, s);
    RowIsLinear(m.xx, m.xy, m.xz, u, v, r.x, s.x);
    RowIsLinear(m.yx, m.yy, m.yz, u, v, r.y, s.y);
    RowIsLinear(m.zx, m.zy, m.zz, u, v, r.z, s.z);
    ImageHasRows(m, VectorAdd(u, v), VectorAdd(r, s));
  }

  lemma MatrixOverDifference(m: Matrix, u: Vector, v: Vector)
    ensures MatrixMultiplyVector(m, VectorSubtract(u, v)) ==
            VectorSubtract(MatrixMultiplyVector(m, u), MatrixMultiplyVector(m, v))
  {
    var w := VectorSubtract(u, v);
    MatrixIsLinear(m, w, v);
    SumUndoesDifference(u, v);
    DifferenceUndoesSum(MatrixMultiplyVector(m, w), MatrixMultiplyVector(m, v));
  }

  lemma SumUndoesDifference(u: Vector, v: Vector)
    ensures VectorAdd(VectorSubtract(u, v), v) == u
  {
  }

  lemma DifferenceUndoesSum(u: Vector, v: Vector)
    ensures VectorSubtract(VectorAdd(u, v), v) == u
  {
  }

  lemma EarthIsRotatedLinear(convention: Convention, q: Quaternion, a: Vector)
    requires Unit(q)
    ensures MatrixMultiplyVector(QuaternionToMatrix(q), LinearAcceleration(convention, q, a)) ==
            EarthAcceleration(convention, q, a)
  {
    GravityRemovedInSensorFrame(convention, q, a);
    GravityRemovedInEarthFrame(convention, q, a);
    var gravity := MatrixMultiplyVector(Transpose(QuaternionToMatrix(q)), UP);
    MatrixIsLinear(QuaternionToMatrix(q), a, gravity);
    MatrixOverDifference(QuaternionToMatrix(q), a, gravity);
    TransposeUndoes(q, UP);
  }

  // ---- The algorithm's state -----------------------------------------------------------------

  const INITIAL_GAIN := 10.0

  // The period is compared with signed counters that go one beyond it.
  const INT_MAX := 0x7FFF_FFFF

  function ReadingOf(measurement: Vector, agrees: bool): Reading {
    if measurement == ZERO then Missing else if agrees then Agreeing else Disagreeing
  }

  function Abs(r: real): real {
    if r < 0.0 then -r else r
  }

  class FusionAhrs {
    const convention: Convention
    const gain: real
    const gyroscopeRange: real
    const recoveryTriggerPeriod: nat
    const rampedGainStep: real
    const accelerationRejection: real
    const magneticRejection: real
    const halfDegree: real   // 0.5 degrees in radians
    var quaternion: Quaternion
    var accelerometer: Vector
    var initialising: bool
    var rampedGain: real
    var angularRateRecovery: bool
    var accelerometerIgnored: bool
    var accelerationRecoveryTrigger: int
    var accelerationRecoveryTimeout: int
    var magnetometerIgnored: bool
    var magneticRecoveryTrigger: int
    var magneticRecoveryTimeout: int

    function Acceleration(): Recovery
      reads this
    {
      Recovery(accelerationRecoveryTrigger, accelerationRecoveryTimeout, accelerometerIgnored)
    }

    function Magnetic(): Recovery
      reads this
    {
      Recovery(magneticRecoveryTrigger, magneticRecoveryTimeout, magnetometerIgnored)
    }

    predicate Valid()
      reads this
    {
      && recoveryTriggerPeriod < INT_MAX
      && Steady(Acceleration(), recoveryTriggerPeriod)
      && Steady(Magnetic(), recoveryTriggerPeriod)
    }

    predicate RangeExceeded(gyroscope: Vector) {
      Abs(gyroscope.x) > gyroscopeRange || Abs(gyroscope.y) > gyroscopeRange || Abs(gyroscope.z) > gyroscopeRange
    }

    constructor (convention: Convention, gain: real, gyroscopeRange: real, recoveryTriggerPeriod: nat,
                 rampedGainStep: real,
                 accelerationRejection: real, magneticRejection: real, halfDegree: real)
      requires recoveryTriggerPeriod < INT_MAX
      ensures Valid() && initialising && !angularRateRecovery
      ensures this.recoveryTriggerPeriod == recoveryTriggerPeriod && this.convention == convention
      ensures Acceleration() == Magnetic() == Fresh(recoveryTriggerPeriod) && quaternion == ONE
    {
      this.accelerationRejection, this.magneticRejection := accelerationRejection, magneticRejection;
      this.halfDegree := halfDegree;
      this.convention, this.gain, this.gyroscopeRange := convention, gain, gyroscopeRange;
      this.recoveryTriggerPeriod, this.rampedGainStep := recoveryTriggerPeriod, rampedGainStep;
      new;
      Reset();
    }

    method Reset()
      modifies this
      ensures quaternion == ONE && accelerometer == Vector(0.0, 0.0, 0.0)
      ensures initialising && rampedGain == INITIAL_GAIN && !angularRateRecovery
      ensures Acceleration() == Magnetic() == Fresh(recoveryTriggerPeriod)
    {
      quaternion := ONE;
      accelerometer := Vector(0.0, 0.0, 0.0);
      initialising := true;
      rampedGain := INITIAL_GAIN;
      angularRateRecovery := false;
      accelerometerIgnored := false;
      accelerationRecoveryTrigger := 0;
      accelerationRecoveryTimeout := recoveryTriggerPeriod;
      magnetometerIgnored := false;
      magneticRecoveryTrigger := 0;
      magneticRecoveryTimeout := recoveryTriggerPeriod;
    }

    // The first half of an update: restart when the gyroscope went out of range, then ramp the gain.
    method Begin(gyroscope: Vector, accelerometer: Vector, deltaTime: real)
      modifies this
      ensures this.accelerometer == (if RangeExceeded(gyroscope) then Vector(0.0, 0.0, 0.0) else accelerometer)
      ensures quaternion == old(quaternion)
      ensures Acceleration() == (if RangeExceeded(gyroscope) then Fresh(recoveryTriggerPeriod) else old(Acceleration()))
      ensures Magnetic() == (if RangeExceeded(gyroscope) then Fresh(recoveryTriggerPeriod) else old(Magnetic()))
      ensures var wasInitialising := RangeExceeded(gyroscope) || old(initialising);
              var ramped := (if RangeExceeded(gyroscope) then INITIAL_GAIN else old(rampedGain))
                            - rampedGainStep * deltaTime;
              && (initialising <==> wasInitialising && ramped >= gain && gain != 0.0)
              && rampedGain == (if !wasInitialising then old(rampedGain) else if initialising then ramped else gain)
              && (angularRateRecovery <==>
                  (RangeExceeded(gyroscope) || old(angularRateRecovery)) && (wasInitialising ==> initialising))
    {
      this.accelerometer := accelerometer;
      if RangeExceeded(gyroscope) {
        var kept := quaternion;
        Reset();
        quaternion := kept;
        angularRateRecovery := true;
      }
      if initialising {
        rampedGain := rampedGain - rampedGainStep * deltaTime;
        if rampedGain < gain || gain == 0.0 {
          rampedGain := gain;
          initialising := false;
          angularRateRecovery := false;
        }
      }
    }

    method ObserveAccelerometer(measurement: Vector, agrees: bool)
      modifies `accelerometerIgnored, `accelerationRecoveryTrigger, `accelerationRecoveryTimeout
      ensures Acceleration() == Observe(old(Acceleration()), recoveryTriggerPeriod,
                                        ReadingOf(measurement, initialising || agrees))
    {
      accelerometerIgnored := true;
      if measurement != Vector(0.0, 0.0, 0.0) {
        if initialising || agrees {
          accelerometerIgnored := false;
          accelerationRecoveryTrigger := accelerationRecoveryTrigger - 9;
        } else {
          accelerationRecoveryTrigger := accelerationRecoveryTrigger + 1;
        }
        if accelerationRecoveryTrigger > accelerationRecoveryTimeout {
          accelerationRecoveryTimeout := 0;
          accelerometerIgnored := false;
        } else {
          accelerationRecoveryTimeout := recoveryTriggerPeriod;
        }
        accelerationRecoveryTrigger := Clamp(accelerationRecoveryTrigger, 0, recoveryTriggerPeriod);
      }
    }

    method ObserveMagnetometer(measurement: Vector, agrees: bool)
      modifies `magnetometerIgnored, `magneticRecoveryTrigger, `magneticRecoveryTimeout
      ensures Magnetic() == Observe(old(Magnetic()), recoveryTriggerPeriod,
                                    ReadingOf(measurement, initialising || agrees))
    {
      magnetometerIgnored := true;
      if measurement != Vector(0.0, 0.0, 0.0) {
        if initialising || agrees {
          magnetometerIgnored := false;
          magneticRecoveryTrigger := magneticRecoveryTrigger - 9;
        } else {
          magneticRecoveryTrigger := magneticRecoveryTrigger + 1;
        }
        if magneticRecoveryTrigger > magneticRecoveryTimeout {
          magneticRecoveryTimeout := 0;
          magnetometerIgnored := false;
        } else {
          magneticRecoveryTimeout := recoveryTriggerPeriod;
        }
        magneticRecoveryTrigger := Clamp(magneticRecoveryTrigger, 0, recoveryTriggerPeriod);
      }
    }

    // The feedback of a sensor that is not ignored, else nothing.
    method AccelerationFeedback(measurement: Vector, normalise: Normaliser) returns (feedback: Vector)
      modifies `accelerometerIgnored, `accelerationRecoveryTrigger, `accelerationRecoveryTimeout
      ensures var error := AccelerometerFeedback(convention, quaternion, measurement, normalise);
              && Acceleration() == Observe(old(Acceleration()), recoveryTriggerPeriod,
                                           ReadingOf(measurement,
                                                     initialising ||
                                                     VectorMagnitudeSquared(error) <= accelerationRejection))
              && feedback == if accelerometerIgnored then ZERO else error
      ensures measurement == ZERO ==> accelerometerIgnored
      ensures initialising && measurement != ZERO ==> !accelerometerIgnored
    {
      var error := AccelerometerFeedback(convention, quaternion, measurement, normalise);
      var agrees := VectorMagnitudeSquared(error) <= accelerationRejection;
      ObserveAccelerometer(measurement, agrees);
      feedback := if accelerometerIgnored then ZERO else error;
    }

    method MagneticFeedback(measurement: Vector, normalise: Normaliser) returns (feedback: Vector)
      modifies `magnetometerIgnored, `magneticRecoveryTrigger, `magneticRecoveryTimeout
      ensures var error := MagnetometerFeedback(convention, quaternion, measurement, normalise);
              && Magnetic() == Observe(old(Magnetic()), recoveryTriggerPeriod,
                                       ReadingOf(measurement,
                                                 initialising || VectorMagnitudeSquared(error) <= magneticRejection))
              && feedback == if magnetometerIgnored then ZERO else error
      ensures measurement == ZERO ==> magnetometerIgnored
      ensures initialising && measurement != ZERO ==> !magnetometerIgnored
    {
      var error := MagnetometerFeedback(convention, quaternion, measurement, normalise);
      var agrees := VectorMagnitudeSquared(error) <= magneticRejection;
      ObserveMagnetometer(measurement, agrees);
      feedback := if magnetometerIgnored then ZERO else error;
    }

    method Integrate(gyroscope: Vector, feedback: Vector, deltaTime: real, normalise: Quaternion -> Quaternion)
      modifies `quaternion
      ensures quaternion == normalise(Integrated(old(quaternion), VectorMultiplyScalar(gyroscope, halfDegree), feedback,
                                                 rampedGain, deltaTime))
      ensures Unit(old(quaternion)) && Normalises(normalise) ==> Unit(quaternion)
    {
      ghost var q, half := quaternion, VectorMultiplyScalar(gyroscope, halfDegree);
      quaternion := normalise(Integrated(quaternion, VectorMultiplyScalar(gyroscope, halfDegree),
                                         feedback, rampedGain, deltaTime));
      if Unit(q) && Normalises(normalise) {
        IntegratedIsNormalised(q, half, feedback, rampedGain, deltaTime, normalise);
      }
    }

    method Update(gyroscope: Vector, accelerometer: Vector, magnetometer: Vector, deltaTime: real,
                  normalise: Normaliser, normaliseQuaternion: Quaternion -> Quaternion)
      requires Valid()
      modifies this
      ensures Valid()
      ensures this.accelerometer == (if RangeExceeded(gyroscope) then ZERO else accelerometer)
      ensures var start := if RangeExceeded(gyroscope) then Fresh(recoveryTriggerPeriod) else old(Acceleration());
              var error := AccelerometerFeedback(convention, old(quaternion), accelerometer, normalise);
              Acceleration() ==
              Observe(start, recoveryTriggerPeriod,
                      ReadingOf(accelerometer, initialising || VectorMagnitudeSquared(error) <= accelerationRejection))
      ensures var start := if RangeExceeded(gyroscope) then Fresh(recoveryTriggerPeriod) else old(Magnetic());
              var error := MagnetometerFeedback(convention, old(quaternion), magnetometer, normalise);
              Magnetic() ==
              Observe(start, recoveryTriggerPeriod,
                      ReadingOf(magnetometer, initialising || VectorMagnitudeSquared(error) <= magneticRejection))
      ensures var a := if accelerometerIgnored then ZERO
                       else AccelerometerFeedback(convention, old(quaternion), accelerometer, normalise);
              var m := if magnetometerIgnored then ZERO
                       else MagnetometerFeedback(convention, old(quaternion), magnetometer, normalise);
              quaternion == normaliseQuaternion(Integrated(old(quaternion), VectorMultiplyScalar(gyroscope, halfDegree),
                                                           VectorAdd(a, m), rampedGain, deltaTime))
      ensures accelerometer == ZERO ==> accelerometerIgnored
      ensures magnetometer == ZERO ==> magnetometerIgnored
      ensures initialising ==> (accelerometer != ZERO ==> !accelerometerIgnored)
                               && (magnetometer != ZERO ==> !magnetometerIgnored)
      ensures Unit(old(quaternion)) && Normalises(normaliseQuaternion) ==> Unit(quaternion)
    {
      Begin(gyroscope, accelerometer, deltaTime);
      var a := AccelerationFeedback(accelerometer, normalise);
      var m := MagneticFeedback(magnetometer, normalise);
      Integrate(gyroscope, VectorAdd(a, m), deltaTime, normaliseQuaternion);
    }

    method GetFlags() returns (accelerationRecovery: bool, magneticRecovery: bool)
      requires Valid()
      ensures recoveryTriggerPeriod > 0 ==> (accelerationRecovery <==> accelerationRecoveryTimeout == 0)
      ensures recoveryTriggerPeriod > 0 ==> (magneticRecovery <==> magneticRecoveryTimeout == 0)
      ensures recoveryTriggerPeriod == 0 ==> !accelerationRecovery && !magneticRecovery
    {
      accelerationRecovery := accelerationRecoveryTrigger > accelerationRecoveryTimeout;
      magneticRecovery := magneticRecoveryTrigger > magneticRecoveryTimeout;
    }
  }
}
