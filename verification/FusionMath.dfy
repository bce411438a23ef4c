// Quaternion and matrix algebra of the sensor fusion library, over exact reals.
module FusionMath {

  datatype Vector = Vector(x: real, y: real, z: real)

  datatype Quaternion = Quaternion(w: real, x: real, y: real, z: real)

  datatype Matrix = Matrix(
    xx: real, xy: real, xz: real,
    yx: real, yy: real, yz: real,
    zx: real, zy: real, zz: real)

  function VectorAdd(a: Vector, b: Vector): Vector {
    Vector(a.x + b.x, a.y + b.y, a.z + b.z)
  }

  function VectorSubtract(a: Vector, b: Vector): Vector {
    Vector(a.x - b.x, a.y - b.y, a.z - b.z)
  }

  function VectorDotProduct(a: Vector, b: Vector): real {
    a.x * b.x + a.y * b.y + a.z * b.z
  }

  function VectorMultiplyScalar(v: Vector, s: real): Vector {
    Vector(v.x * s, v.y * s, v.z * s)
  }

  function VectorCrossProduct(a: Vector, b: Vector): Vector {
    Vector(a.y * b.z - a.z * b.y, a.z * b.x - a.x * b.z, a.x * b.y - a.y * b.x)
  }

  function VectorMagnitudeSquared(v: Vector): real {
    v.x * v.x + v.y * v.y + v.z * v.z
  }

  function QuaternionAdd(a: Quaternion, b: Quaternion): Quaternion {
    Quaternion(a.w + b.w, a.x + b.x, a.y + b.y, a.z + b.z)
  }

  function QuaternionMultiplyVector(q: Quaternion, v: Vector): Quaternion {
    Quaternion(-q.x * v.x - q.y * v.y - q.z * v.z,
               q.w * v.x + q.y * v.z - q.z * v.y,
               q.w * v.y - q.x * v.z + q.z * v.x,
               q.w * v.z + q.x * v.y - q.y * v.x)
  }

  function QuaternionMultiply(a: Quaternion, b: Quaternion): Quaternion {
    Quaternion(a.w * b.w - a.x * b.x - a.y * b.y - a.z * b.z,
               a.w * b.x + a.x * b.w + a.y * b.z - a.z * b.y,
               a.w * b.y - a.x * b.z + a.y * b.w + a.z * b.x,
               a.w * b.z + a.x * b.y - a.y * b.x + a.z * b.w)
  }

  function MatrixMultiplyVector(m: Matrix, v: Vector): Vector {
    Vector(m.xx * v.x + m.xy * v.y + m.xz * v.z,
           m.yx * v.x + m.yy * v.y + m.yz * v.z,
           m.zx * v.x + m.zy * v.y + m.zz * v.z)
  }

  // The products of a quaternion's elements.
  datatype Products = Products(ww: real, wx: real, wy: real, wz: real, xx: real, xy: real, xz: real,
                               yy: real, yz: real, zz: real)

  function ProductsOf(w: real, x: real, y: real, z: real): Products {
    Products(w * w, w * x, w * y, w * z, x * x, x * y, x * z, y * y, y * z, z * z)
  }

  function MatrixOf(p: Products): Matrix {
    Matrix(2.0 * (p.ww - 0.5 + p.xx), 2.0 * (p.xy - p.wz), 2.0 * (p.xz + p.wy),
           2.0 * (p.xy + p.wz), 2.0 * (p.ww - 0.5 + p.yy), 2.0 * (p.yz - p.wx),
           2.0 * (p.xz - p.wy), 2.0 * (p.yz + p.wx), 2.0 * (p.ww - 0.5 + p.zz))
  }

  function QuaternionToMatrix(q: Quaternion): Matrix {
    MatrixOf(ProductsOf(q.w, q.x, q.y, q.z))
  }

  // ---- Reference notions -------------------------------------------------------------------

  function NormSquared(q: Quaternion): real {
    q.w * q.w + q.x * q.x + q.y * q.y + q.z * q.z
  }

  predicate Unit(q: Quaternion) {
    NormSquared(q) == 1.0
  }

  function Conjugate(q: Quaternion): Quaternion {
    Quaternion(q.w, -q.x, -q.y, -q.z)
  }

  function Pure(v: Vector): Quaternion {
    Quaternion(0.0, v.x, v.y, v.z)
  }

  // The rotation that a quaternion stands for, by its algebraic definition.
  function Rotated(q: Quaternion, p: Quaternion): Quaternion {
    QuaternionMultiply(QuaternionMultiply(q, p), Conjugate(q))
  }

  function Transpose(m: Matrix): Matrix {
    Matrix(m.xx, m.yx, m.zx, m.xy, m.yy, m.zy, m.xz, m.yz, m.zz)
  }

  function Column(m: Matrix, j: nat): Vector
    requires j < 3
  {
    match j
    case 0 => Vector(m.xx, m.yx, m.zx)
    case 1 => Vector(m.xy, m.yy, m.zy)
    case _ => Vector(m.xz, m.yz, m.zz)
  }

  function Axis(j: nat): Vector
    requires j < 3
  {
    match j
    case 0 => Vector(1.0, 0.0, 0.0)
    case 1 => Vector(0.0, 1.0, 0.0)
    case _ => Vector(0.0, 0.0, 1.0)
  }

  // Each column of the matrix product is the left matrix applied to that column of the right one.
  predicate IsMatrixProduct(a: Matrix, b: Matrix, c: Matrix) {
    forall j: nat | j < 3 :: Column(c, j) == MatrixMultiplyVector(a, Column(b, j))
  }

  const ONE := Quaternion(1.0, 0.0, 0.0, 0.0)

  const IDENTITY := Matrix(1.0, 0.0, 0.0, 0.0, 1.0, 0.0, 0.0, 0.0, 1.0)

  const UP := Vector(0.0, 0.0, 1.0)

  // ---- Quaternion algebra -------------------------------------------------------------------

  // The solver multiplies sums out only where both stand in the text, and is lost among many
  // products. So the polynomial identities are stated on plain reals, with (W, X, Y, Z) the product
  // of (w, x, y, z) and (k, l, m, n), and only then carried over to quaternions.
  predicate IsProduct(w: real, x: real, y: real, z: real, k: real, l: real, m: real, n: real,
                      W: real, X: real, Y: real, Z: real) {
    && W == w * k - x * l - y * m - z * n
    && X == w * l + x * k + y * n - z * m
    && Y == w * m - x * n + y * k + z * l
    && Z == w * n + x * m - y * l + z * k
  }

  lemma ProductGives(a: Quaternion, b: Quaternion)
    ensures var c := QuaternionMultiply(a, b);
            IsProduct(a.w, a.x, a.y, a.z, b.w, b.x, b.y, b.z, c.w, c.x, c.y, c.z)
  {
  }

  lemma OnlyProduct(w: real, x: real, y: real, z: real, k: real, l: real, m: real, n: real,
                    c: Quaternion, d: Quaternion)
    requires IsProduct(w, x, y, z, k, l, m, n, c.w, c.x, c.y, c.z)
    requires IsProduct(w, x, y, z, k, l, m, n, d.w, d.x, d.y, d.z)
    ensures c == d
  {
  }

  lemma ProductIsProduct(a: Quaternion, b: Quaternion, c: Quaternion)
    ensures c == QuaternionMultiply(a, b) <==>
            IsProduct(a.w, a.x, a.y, a.z, b.w, b.x, b.y, b.z, c.w, c.x, c.y, c.z)
  {
    ProductGives(a, b);
    if IsProduct(a.w, a.x, a.y, a.z, b.w, b.x, b.y, b.z, c.w, c.x, c.y, c.z) {
      OnlyProduct(a.w, a.x, a.y, a.z, b.w, b.x, b.y, b.z, c, QuaternionMultiply(a, b));
    }
  }

  lemma AssociativeW(w: real, x: real, y: real, z: real, k: real, l: real, m: real, n: real,
                     p: real, q: real, r: real, s: real, W: real, X: real, Y: real, Z: real,
                     P: real, Q: real, R: real, S: real)
    requires IsProduct(w, x, y, z, k, l, m, n, W, X, Y, Z) && IsProduct(k, l, m, n, p, q, r, s, P, Q, R, S)
    ensures W * p - X * q - Y * r - Z * s == w * P - x * Q - y * R - z * S
  {
    assert W * p == (w * k - x * l - y * m - z * n) * p;
    assert X * q == (w * l + x * k + y * n - z * m) * q;
    assert Y * r == (w * m - x * n + y * k + z * l) * r;
    assert Z * s == (w * n + x * m - y * l + z * k) * s;
    assert w * P == w * (k * p - l * q - m * r - n * s);
    assert x * Q == x * (k * q + l * p + m * s - n * r);
    assert y * R == y * (k * r - l * s + m * p + n * q);
    assert z * S == z * (k * s + l * r - m * q + n * p);
  }

  lemma AssociativeX(w: real, x: real, y: real, z: real, k: real, l: real, m: real, n: real,
                     p: real, q: real, r: real, s: real, W: real, X: real, Y: real, Z: real,
                     P: real, Q: real, R: real, S: real)
    requires IsProduct(w, x, y, z, k, l, m, n, W, X, Y, Z) && IsProduct(k, l, m, n, p, q, r, s, P, Q, R, S)
    ensures W * q + X * p + Y * s - Z * r == w * Q + x * P + y * S - z * R
  {
    assert W * q == (w * k - x * l - y * m - z * n) * q;
    assert X * p == (w * l + x * k + y * n - z * m) * p;
    assert Y * s == (w * m - x * n + y * k + z * l) * s;
    assert Z * r == (w * n + x * m - y * l + z * k) * r;
    assert w * Q == w * (k * q + l * p + m * s - n * r);
    assert x * P == x * (k * p - l * q - m * r - n * s);
    assert y * S == y * (k * s + l * r - m * q + n * p);
    assert z * R == z * (k * r - l * s + m * p + n * q);
  }

  // The three axes can be cycled, so what holds of the first holds of the others.
  lemma Cycled(w: real, x: real, y: real, z: real, k: real, l: real, m: real, n: real,
               W: real, X: real, Y: real, Z: real)
    requires IsProduct(w, x, y, z, k, l, m, n, W, X, Y, Z)
    ensures IsProduct(w, y, z, x, k, m, n, l, W, Y, Z, X) && IsProduct(w, z, x, y, k, n, l, m, W, Z, X, Y)
  {
  }

  lemma AssociativeParts(w: real, x: real, y: real, z: real, k: real, l: real, m: real, n: real,
                         p: real, q: real, r: real, s: real, W: real, X: real, Y: real, Z: real,
                         P: real, Q: real, R: real, S: real, d: real, e: real, f: real, g: real)
    requires IsProduct(w, x, y, z, k, l, m, n, W, X, Y, Z) && IsProduct(k, l, m, n, p, q, r, s, P, Q, R, S)
    requires IsProduct(W, X, Y, Z, p, q, r, s, d, e, f, g)
    ensures IsProduct(w, x, y, z, P, Q, R, S, d, e, f, g)
  {
    Cycled(w, x, y, z, k, l, m, n, W, X, Y, Z);
    Cycled(k, l, m, n, p, q, r, s, P, Q, R, S);
    AssociativeW(w, x, y, z, k, l, m, n, p, q, r, s, W, X, Y, Z, P, Q, R, S);
    AssociativeX(w, x, y, z, k, l, m, n, p, q, r, s, W, X, Y, Z, P, Q, R, S);
    AssociativeX(w, y, z, x, k, m, n, l, p, r, s, q, W, Y, Z, X, P, R, S, Q);
    AssociativeX(w, z, x, y, k, n, l, m, p, s, q, r, W, Z, X, Y, P, S, Q, R);
  }

  lemma Associative(a: Quaternion, b: Quaternion, c: Quaternion)
    ensures QuaternionMultiply(QuaternionMultiply(a, b), c) == QuaternionMultiply(a, QuaternionMultiply(b, c))
  {
    var d, e := QuaternionMultiply(a, b), QuaternionMultiply(b, c);
    var f := QuaternionMultiply(d, c);
    ProductIsProduct(a, b, d);
    ProductIsProduct(b, c, e);
    ProductIsProduct(d, c, f);
    AssociativeParts(a.w, a.x, a.y, a.z, b.w, b.x, b.y, b.z, c.w, c.x, c.y, c.z, d.w, d.x, d.y, d.z,
                     e.w, e.x, e.y, e.z, f.w, f.x, f.y, f.z);
    ProductIsProduct(a, e, f);
  }

  lemma ConjugateParts(w: real, x: real, y: real, z: real, k: real, l: real, m: real, n: real,
                       W: real, X: real, Y: real, Z: real)
    requires IsProduct(w, x, y, z, k, l, m, n, W, X, Y, Z)
    ensures IsProduct(k, -l, -m, -n, w, -x, -y, -z, W, -X, -Y, -Z)
  {
  }

  lemma ConjugateOfProduct(a: Quaternion, b: Quaternion)
    ensures Conjugate(QuaternionMultiply(a, b)) == QuaternionMultiply(Conjugate(b), Conjugate(a))
  {
    var c := QuaternionMultiply(a, b);
    ProductIsProduct(a, b, c);
    ConjugateParts(a.w, a.x, a.y, a.z, b.w, b.x, b.y, b.z, c.w, c.x, c.y, c.z);
    ProductIsProduct(Conjugate(b), Conjugate(a), Conjugate(c));
  }

  lemma NormOfProduct(w: real, x: real, y: real, z: real, k: real, l: real, m: real, n: real,
                      W: real, X: real, Y: real, Z: real)
    requires IsProduct(w, x, y, z, k, l, m, n, W, X, Y, Z)
    ensures W * W + X * X + Y * Y + Z * Z == (w * w + x * x + y * y + z * z) * (k * k + l * l + m * m + n * n)
  {
    assert W * W == (w * k - x * l - y * m - z * n) * (w * k - x * l - y * m - z * n);
    assert X * X == (w * l + x * k + y * n - z * m) * (w * l + x * k + y * n - z * m);
    assert Y * Y == (w * m - x * n + y * k + z * l) * (w * m - x * n + y * k + z * l);
    assert Z * Z == (w * n + x * m - y * l + z * k) * (w * n + x * m - y * l + z * k);
  }

  lemma NormMultiplies(a: Quaternion, b: Quaternion)
    ensures NormSquared(QuaternionMultiply(a, b)) == NormSquared(a) * NormSquared(b)
  {
    var c := QuaternionMultiply(a, b);
    ProductIsProduct(a, b, c);
    NormOfProduct(a.w, a.x, a.y, a.z, b.w, b.x, b.y, b.z, c.w, c.x, c.y, c.z);
  }

  lemma RotationX(w: real, x: real, y: real, z: real, k: real, l: real, m: real,
                  W: real, X: real, Y: real, Z: real)
    requires w * w + x * x + y * y + z * z == 1.0
    requires IsProduct(w, x, y, z, 0.0, k, l, m, W, X, Y, Z)
    ensures W * -x + X * w + Y * -z - Z * -y ==
            2.0 * (w * w - 0.5 + x * x) * k + 2.0 * (x * y - w * z) * l + 2.0 * (x * z + w * y) * m
  {
    assert W * -x == (-x * k - y * l - z * m) * -x;
    assert X * w == (w * k + y * m - z * l) * w;
    assert Y * -z == (w * l - x * m + z * k) * -z;
    assert Z * -y == (w * m + x * l - y * k) * -y;
    assert (w * w + x * x + y * y + z * z) * k == k;
  }

  lemma RotationW(w: real, x: real, y: real, z: real, k: real, l: real, m: real,
                  W: real, X: real, Y: real, Z: real)
    requires IsProduct(w, x, y, z, 0.0, k, l, m, W, X, Y, Z)
    ensures W * w - X * -x - Y * -y - Z * -z == 0.0
  {
    assert W * w == (-x * k - y * l - z * m) * w;
    assert X * -x == (w * k + y * m - z * l) * -x;
    assert Y * -y == (w * l - x * m + z * k) * -y;
    assert Z * -z == (w * m + x * l - y * k) * -z;
  }

  predicate IsTwiceRow(a: real, b: real, c: real, k: real, l: real, m: real, r: real) {
    r == 2.0 * a * k + 2.0 * b * l + 2.0 * c * m
  }

  lemma ImageX(q: Quaternion, v: Vector)
    ensures IsTwiceRow(q.w * q.w - 0.5 + q.x * q.x, q.x * q.y - q.w * q.z, q.x * q.z + q.w * q.y,
                       v.x, v.y, v.z, MatrixMultiplyVector(QuaternionToMatrix(q), v).x)
  {
  }

  lemma ImageY(q: Quaternion, v: Vector)
    ensures IsTwiceRow(q.x * q.y + q.w * q.z, q.w * q.w - 0.5 + q.y * q.y, q.y * q.z - q.w * q.x,
                       v.x, v.y, v.z, MatrixMultiplyVector(QuaternionToMatrix(q), v).y)
  {
  }

  lemma ImageZ(q: Quaternion, v: Vector)
    ensures IsTwiceRow(q.x * q.z - q.w * q.y, q.y * q.z + q.w * q.x, q.w * q.w - 0.5 + q.z * q.z,
                       v.x, v.y, v.z, MatrixMultiplyVector(QuaternionToMatrix(q), v).z)
  {
  }

  lemma RotationParts(w: real, x: real, y: real, z: real, k: real, l: real, m: real,
                      W: real, X: real, Y: real, Z: real, p: real, q: real, r: real)
    requires w * w + x * x + y * y + z * z == 1.0
    requires IsProduct(w, x, y, z, 0.0, k, l, m, W, X, Y, Z)
    requires IsTwiceRow(w * w - 0.5 + x * x, x * y - w * z, x * z + w * y, k, l, m, p)
    requires IsTwiceRow(x * y + w * z, w * w - 0.5 + y * y, y * z - w * x, k, l, m, q)
    requires IsTwiceRow(x * z - w * y, y * z + w * x, w * w - 0.5 + z * z, k, l, m, r)
    ensures IsProduct(W, X, Y, Z, w, -x, -y, -z, 0.0, p, q, r)
  {
    Cycled(w, x, y, z, 0.0, k, l, m, W, X, Y, Z);
    RotationW(w, x, y, z, k, l, m, W, X, Y, Z);
    RotationX(w, x, y, z, k, l, m, W, X, Y, Z);
    RotationX(w, y, z, x, l, m, k, W, Y, Z, X);
    RotationX(w, z, x, y, m, k, l, W, Z, X, Y);
  }

  lemma MatrixRotates(q: Quaternion, v: Vector)
    requires Unit(q)
    ensures Pure(MatrixMultiplyVector(QuaternionToMatrix(q), v)) == Rotated(q, Pure(v))
  {
    var d, u := QuaternionMultiply(q, Pure(v)), MatrixMultiplyVector(QuaternionToMatrix(q), v);
    ProductIsProduct(q, Pure(v), d);
    ImageX(q, v);
    ImageY(q, v);
    ImageZ(q, v);
    RotationParts(q.w, q.x, q.y, q.z, v.x, v.y, v.z, d.w, d.x, d.y, d.z, u.x, u.y, u.z);
    ProductIsProduct(d, Conjugate(q), Pure(u));
  }

  lemma RotatedByProduct(a: Quaternion, b: Quaternion, p: Quaternion)
    ensures Rotated(QuaternionMultiply(a, b), p) == Rotated(a, Rotated(b, p))
  {
    var ab, bp, ca, cb := QuaternionMultiply(a, b), QuaternionMultiply(b, p), Conjugate(a), Conjugate(b);
    ConjugateOfProduct(a, b);
    Associative(a, b, p);
    Associative(QuaternionMultiply(a, bp), cb, ca);
    Associative(a, bp, cb);
  }

  // ---- What the matrix of a unit quaternion does ---------------------------------------------

  lemma ProductOfUnits(a: Quaternion, b: Quaternion)
    requires Unit(a) && Unit(b)
    ensures Unit(QuaternionMultiply(a, b))
  {
    NormMultiplies(a, b);
  }

  lemma ProductRotates(a: Quaternion, b: Quaternion, v: Vector)
    requires Unit(a) && Unit(b)
    ensures MatrixMultiplyVector(QuaternionToMatrix(QuaternionMultiply(a, b)), v) ==
            MatrixMultiplyVector(QuaternionToMatrix(a), MatrixMultiplyVector(QuaternionToMatrix(b), v))
  {
    ProductOfUnits(a, b);
    var u := MatrixMultiplyVector(QuaternionToMatrix(b), v);
    MatrixRotates(QuaternionMultiply(a, b), v);
    MatrixRotates(b, v);
    MatrixRotates(a, u);
    RotatedByProduct(a, b, Pure(v));
    PureIsInjective(MatrixMultiplyVector(QuaternionToMatrix(QuaternionMultiply(a, b)), v),
                    MatrixMultiplyVector(QuaternionToMatrix(a), u));
  }

  lemma PureIsInjective(u: Vector, v: Vector)
    requires Pure(u) == Pure(v)
    ensures u == v
  {
  }

  lemma ColumnIsImageOfAxis(m: Matrix, j: nat)
    requires j < 3
    ensures MatrixMultiplyVector(m, Axis(j)) == Column(m, j)
  {
  }

  lemma ProductBecomesMatrixProduct(a: Quaternion, b: Quaternion)
    requires Unit(a) && Unit(b)
    ensures IsMatrixProduct(QuaternionToMatrix(a), QuaternionToMatrix(b), QuaternionToMatrix(QuaternionMultiply(a, b)))
  {
    var m, n := QuaternionToMatrix(QuaternionMultiply(a, b)), QuaternionToMatrix(b);
    forall j: nat | j < 3
      ensures Column(m, j) == MatrixMultiplyVector(QuaternionToMatrix(a), Column(n, j))
    {
      ProductRotates(a, b, Axis(j));
      ColumnIsImageOfAxis(m, j);
      ColumnIsImageOfAxis(n, j);
    }
  }

  // The matrix before it is scaled by two.
  function HalfOf(p: Products): Matrix {
    Matrix(p.ww - 0.5 + p.xx, p.xy - p.wz, p.xz + p.wy,
           p.xy + p.wz, p.ww - 0.5 + p.yy, p.yz - p.wx,
           p.xz - p.wy, p.yz + p.wx, p.ww - 0.5 + p.zz)
  }

  function HalfMatrix(w: real, x: real, y: real, z: real): Matrix {
    HalfOf(ProductsOf(w, x, y, z))
  }

  predicate IsTwice(m: Matrix, h: Matrix) {
    && m.xx == 2.0 * h.xx && m.xy == 2.0 * h.xy && m.xz == 2.0 * h.xz
    && m.yx == 2.0 * h.yx && m.yy == 2.0 * h.yy && m.yz == 2.0 * h.yz
    && m.zx == 2.0 * h.zx && m.zy == 2.0 * h.zy && m.zz == 2.0 * h.zz
  }

  lemma ScaledByTwo(p: Products)
    ensures IsTwice(MatrixOf(p), HalfOf(p))
  {
  }

  lemma MatrixIsTwiceHalf(q: Quaternion)
    ensures IsTwice(QuaternionToMatrix(q), HalfMatrix(q.w, q.x, q.y, q.z))
  {
    ScaledByTwo(ProductsOf(q.w, q.x, q.y, q.z));
  }

  lemma NegatedAxes(w: real, x: real, y: real, z: real)
    ensures HalfMatrix(w, -x, -y, -z) == Transpose(HalfMatrix(w, x, y, z))
  {
  }

  lemma TwiceTransposed(m: Matrix, n: Matrix, h: Matrix)
    requires IsTwice(m, h) && IsTwice(n, Transpose(h))
    ensures n == Transpose(m)
  {
  }

  lemma ConjugateIsTranspose(q: Quaternion)
    ensures QuaternionToMatrix(Conjugate(q)) == Transpose(QuaternionToMatrix(q))
  {
    MatrixIsTwiceHalf(q);
    MatrixIsTwiceHalf(Conjugate(q));
    NegatedAxes(q.w, q.x, q.y, q.z);
    TwiceTransposed(QuaternionToMatrix(q), QuaternionToMatrix(Conjugate(q)), HalfMatrix(q.w, q.x, q.y, q.z));
  }

  lemma ConjugateIsInverse(q: Quaternion)
    requires Unit(q)
    ensures Unit(Conjugate(q))
    ensures QuaternionMultiply(q, Conjugate(q)) == ONE && QuaternionMultiply(Conjugate(q), q) == ONE
  {
  }

  lemma OneIsIdentity()
    ensures QuaternionToMatrix(ONE) == IDENTITY
  {
  }

  lemma IdentityKeeps(v: Vector)
    ensures MatrixMultiplyVector(IDENTITY, v) == v
  {
  }

  lemma MatrixIsOrthogonal(q: Quaternion)
    requires Unit(q)
    ensures IsMatrixProduct(QuaternionToMatrix(q), Transpose(QuaternionToMatrix(q)), IDENTITY)
    ensures IsMatrixProduct(Transpose(QuaternionToMatrix(q)), QuaternionToMatrix(q), IDENTITY)
  {
    ConjugateIsInverse(q);
    ConjugateIsTranspose(q);
    ProductBecomesMatrixProduct(q, Conjugate(q));
    ProductBecomesMatrixProduct(Conjugate(q), q);
    OneIsIdentity();
  }

  lemma TransposeUndoes(q: Quaternion, v: Vector)
    requires Unit(q)
    ensures MatrixMultiplyVector(QuaternionToMatrix(q), MatrixMultiplyVector(Transpose(QuaternionToMatrix(q)), v)) == v
  {
    ConjugateIsInverse(q);
    ConjugateIsTranspose(q);
    ProductRotates(q, Conjugate(q), v);
    OneIsIdentity();
    IdentityKeeps(v);
  }

  // Moving a matrix to the other side of a dot product transposes it, entry by entry.
  lemma Adjoint(m: Matrix, u: Vector, v: Vector, p: Vector, q: Vector)
    requires p == MatrixMultiplyVector(m, u) && q == MatrixMultiplyVector(Transpose(m), v)
    ensures VectorDotProduct(p, v) == VectorDotProduct(u, q)
  {
    assert p.x * v.x == (m.xx * u.x + m.xy * u.y + m.xz * u.z) * v.x;
    assert p.y * v.y == (m.yx * u.x + m.yy * u.y + m.yz * u.z) * v.y;
    assert p.z * v.z == (m.zx * u.x + m.zy * u.y + m.zz * u.z) * v.z;
    assert u.x * q.x == u.x * (m.xx * v.x + m.yx * v.y + m.zx * v.z);
    assert u.y * q.y == u.y * (m.xy * v.x + m.yy * v.y + m.zy * v.z);
    assert u.z * q.z == u.z * (m.xz * v.x + m.yz * v.y + m.zz * v.z);
  }

  // A rotation keeps dot products, hence lengths and angles.
  lemma RotationKeepsDotProduct(q: Quaternion, u: Vector, v: Vector)
    requires Unit(q)
    ensures VectorDotProduct(MatrixMultiplyVector(QuaternionToMatrix(q), u),
                             MatrixMultiplyVector(QuaternionToMatrix(q), v)) ==
            VectorDotProduct(u, v)
  {
    var m := QuaternionToMatrix(q);
    var w := MatrixMultiplyVector(m, v);
    Adjoint(m, u, w, MatrixMultiplyVector(m, u), MatrixMultiplyVector(Transpose(m), w));
    ConjugateIsInverse(q);
    ConjugateIsTranspose(q);
    TransposeUndoes(Conjugate(q), v);
    assert Transpose(Transpose(m)) == m;
  }

  lemma DistributesLeft(q: Quaternion, a: Quaternion, b: Quaternion)
    ensures QuaternionMultiply(q, QuaternionAdd(a, b)) ==
            QuaternionAdd(QuaternionMultiply(q, a), QuaternionMultiply(q, b))
  {
  }

  lemma DistributesRight(q: Quaternion, a: Quaternion, b: Quaternion)
    ensures QuaternionMultiply(QuaternionAdd(a, b), q) ==
            QuaternionAdd(QuaternionMultiply(a, q), QuaternionMultiply(b, q))
  {
  }

  function Real(s: real): Quaternion {
    Quaternion(s, 0.0, 0.0, 0.0)
  }

  lemma RealsCommute(s: real, q: Quaternion)
    ensures QuaternionMultiply(Real(s), q) == QuaternionMultiply(q, Real(s))
  {
  }

  lemma OneKeeps(q: Quaternion)
    ensures QuaternionMultiply(ONE, q) == q
  {
  }

  lemma RealsStay(q: Quaternion, s: real)
    requires Unit(q)
    ensures Rotated(q, Real(s)) == Real(s)
  {
    Associative(q, Real(s), Conjugate(q));
    RealsCommute(s, Conjugate(q));
    Associative(q, Conjugate(q), Real(s));
    ConjugateIsInverse(q);
    OneKeeps(Real(s));
  }

  lemma RotatedSum(q: Quaternion, a: Quaternion, b: Quaternion)
    ensures Rotated(q, QuaternionAdd(a, b)) == QuaternionAdd(Rotated(q, a), Rotated(q, b))
  {
    DistributesLeft(q, a, b);
    DistributesRight(Conjugate(q), QuaternionMultiply(q, a), QuaternionMultiply(q, b));
  }

  // A rotation keeps products: what stands between the two factors cancels.
  lemma RotatedProduct(q: Quaternion, a: Quaternion, b: Quaternion)
    requires Unit(q)
    ensures QuaternionMultiply(Rotated(q, a), Rotated(q, b)) == Rotated(q, QuaternionMultiply(a, b))
  {
    var c, qa, qb := Conjugate(q), QuaternionMultiply(q, a), QuaternionMultiply(q, b);
    Associative(qa, c, Rotated(q, b));
    Associative(c, qb, c);
    Associative(c, q, b);
    ConjugateIsInverse(q);
    OneKeeps(b);
    assert QuaternionMultiply(c, Rotated(q, b)) == QuaternionMultiply(b, c);
    Associative(qa, b, c);
    Associative(q, a, b);
  }

  lemma ProductOfPure(u: Vector, v: Vector)
    ensures QuaternionMultiply(Pure(u), Pure(v)) ==
            QuaternionAdd(Real(-VectorDotProduct(u, v)), Pure(VectorCrossProduct(u, v)))
  {
  }

  lemma VectorPart(s: real, t: real, u: Vector, v: Vector)
    requires QuaternionAdd(Real(s), Pure(u)) == QuaternionAdd(Real(t), Pure(v))
    ensures u == v
  {
    var a, b := QuaternionAdd(Real(s), Pure(u)), QuaternionAdd(Real(t), Pure(v));
    assert a.x == 0.0 + u.x && a.y == 0.0 + u.y && a.z == 0.0 + u.z;
    assert b.x == 0.0 + v.x && b.y == 0.0 + v.y && b.z == 0.0 + v.z;
  }

  // It keeps cross products too: no rotation turns a right hand into a left one.
  lemma RotationKeepsCrossProduct(q: Quaternion, u: Vector, v: Vector)
    requires Unit(q)
    ensures VectorCrossProduct(MatrixMultiplyVector(QuaternionToMatrix(q), u),
                               MatrixMultiplyVector(QuaternionToMatrix(q), v)) ==
            MatrixMultiplyVector(QuaternionToMatrix(q), VectorCrossProduct(u, v))
  {
    var m, w, s := QuaternionToMatrix(q), VectorCrossProduct(u, v), -VectorDotProduct(u, v);
    var mu, mv := MatrixMultiplyVector(m, u), MatrixMultiplyVector(m, v);
    MatrixRotates(q, u);
    MatrixRotates(q, v);
    MatrixRotates(q, w);
    RotatedProduct(q, Pure(u), Pure(v));
    ProductOfPure(u, v);
    ProductOfPure(mu, mv);
    RotatedSum(q, Real(s), Pure(w));
    RealsStay(q, s);
    VectorPart(-VectorDotProduct(mu, mv), s, VectorCrossProduct(mu, mv), MatrixMultiplyVector(m, w));
  }

  // ---- Integration ---------------------------------------------------------------------------

  predicate IsSpin(w: real, x: real, y: real, z: real, k: real, l: real, m: real, W: real, X: real, Y: real, Z: real) {
    && W == -x * k - y * l - z * m
    && X == w * k + y * m - z * l
    && Y == w * l - x * m + z * k
    && Z == w * m + x * l - y * k
  }

  lemma SpinGives(q: Quaternion, v: Vector)
    ensures var s := QuaternionMultiplyVector(q, v);
            IsSpin(q.w, q.x, q.y, q.z, v.x, v.y, v.z, s.w, s.x, s.y, s.z)
  {
  }

  lemma SpunIsProduct(w: real, x: real, y: real, z: real, k: real, l: real, m: real, W: real, X: real, Y: real, Z: real)
    requires IsSpin(w, x, y, z, k, l, m, W, X, Y, Z)
    ensures IsProduct(w, x, y, z, 1.0, k, l, m, w + W, x + X, y + Y, z + Z)
  {
  }

  lemma IntegrationIsProduct(q: Quaternion, v: Vector)
    ensures QuaternionAdd(q, QuaternionMultiplyVector(q, v)) == QuaternionMultiply(q, Quaternion(1.0, v.x, v.y, v.z))
  {
    var s := QuaternionMultiplyVector(q, v);
    SpinGives(q, v);
    SpunIsProduct(q.w, q.x, q.y, q.z, v.x, v.y, v.z, s.w, s.x, s.y, s.z);
    ProductIsProduct(q, Quaternion(1.0, v.x, v.y, v.z), QuaternionAdd(q, s));
  }

  lemma NormOfStep(v: Vector)
    ensures NormSquared(Quaternion(1.0, v.x, v.y, v.z)) == 1.0 + VectorMagnitudeSquared(v) >= 1.0
  {
  }

  lemma OneTimes(a: real, b: real)
    requires a == 1.0
    ensures a * b == b
  {
  }

  // Integrating a step never brings a unit quaternion near zero, so it can always be normalised.
  lemma IntegrationNeverVanishes(q: Quaternion, v: Vector)
    requires Unit(q)
    ensures NormSquared(QuaternionAdd(q, QuaternionMultiplyVector(q, v))) == 1.0 + VectorMagnitudeSquared(v) >= 1.0
  {
    var p := Quaternion(1.0, v.x, v.y, v.z);
    IntegrationIsProduct(q, v);
    NormMultiplies(q, p);
    NormOfStep(v);
    OneTimes(NormSquared(q), NormSquared(p));
  }
}
