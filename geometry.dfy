/**
  * The vector arithmetic the exporter borrows from Assimp's `aiVector3D`
  * (subtraction, addition, scaling, dot product), taken over the reals.
  * Single-precision rounding is not modelled; `sqrt` is an argument that
  * squares back exactly (`SqrtAt`).
  */
module Geometry {

  datatype Vec3 = Vec3(x: real, y: real, z: real)

  const Origin: Vec3 := Vec3(0.0, 0.0, 0.0)

  function Add(a: Vec3, b: Vec3): Vec3 {
    Vec3(a.x + b.x, a.y + b.y, a.z + b.z)
  }

  function Sub(a: Vec3, b: Vec3): Vec3 {
    Vec3(a.x - b.x, a.y - b.y, a.z - b.z)
  }

  function Scale(a: Vec3, k: real): Vec3 {
    Vec3(a.x * k, a.y * k, a.z * k)
  }

  /** `operator*` of two `aiVector3D`s: the dot product. */
  function Dot(a: Vec3, b: Vec3): real {
    a.x * b.x + a.y * b.y + a.z * b.z
  }

  /** Squared Euclidean distance between two points. */
  function DistSq(p: Vec3, q: Vec3): real {
    Dot(Sub(p, q), Sub(p, q))
  }

  /** `sqrt` at `x`: for a non-negative `x`, non-negative and squaring back to `x`. */
  ghost predicate SqrtAt(sqrt: real -> real, x: real) {
    0.0 <= x ==> 0.0 <= sqrt(x) && sqrt(x) * sqrt(x) == x
  }

  lemma DotSelfNonNegative(a: Vec3)
    ensures 0.0 <= Dot(a, a)
  {
  }

  lemma DistSqSelf(p: Vec3)
    ensures DistSq(p, p) == 0.0
  {
    assert Sub(p, p) == Origin;
  }

  lemma DotScaleSelf(d: Vec3, t: real)
    ensures Dot(Scale(d, t), Scale(d, t)) == t * t * Dot(d, d)
  {
  }

  /** Seen from `x`, moving the point `c` by `w` moves `x - c` by `-w`. */
  lemma SubMoved(x: Vec3, c: Vec3, w: Vec3)
    ensures Sub(x, Add(c, w)) == Sub(Sub(x, c), w)
  {
  }

  /** Moving `c` by the fraction `k` of the way to `p` leaves `1 - k` of `p - c`. */
  lemma SubTowards(p: Vec3, c: Vec3, k: real)
    ensures Sub(p, Add(c, Scale(Sub(p, c), k))) == Scale(Sub(p, c), 1.0 - k)
  {
  }

  /** |u - w|^2 expanded. */
  lemma DotSubSelf(u: Vec3, w: Vec3)
    ensures Dot(Sub(u, w), Sub(u, w)) == Dot(u, u) - 2.0 * Dot(u, w) + Dot(w, w)
  {
  }

  lemma DotScaleRight(u: Vec3, d: Vec3, k: real)
    ensures Dot(u, Scale(d, k)) == k * Dot(u, d)
  {
  }

  /** Cauchy–Schwarz in three dimensions, from Lagrange's identity. */
  lemma CauchySchwarz(u: Vec3, v: Vec3)
    ensures Dot(u, v) * Dot(u, v) <= Dot(u, u) * Dot(v, v)
  {
    var cx := u.y * v.z - u.z * v.y;
    var cy := u.z * v.x - u.x * v.z;
    var cz := u.x * v.y - u.y * v.x;
    assert Dot(u, u) * Dot(v, v) - Dot(u, v) * Dot(u, v) == cx * cx + cy * cy + cz * cz;
  }

  lemma MulPos(x: real, y: real)
    requires 0.0 < x && 0.0 < y
    ensures 0.0 < x * y
  {
  }

  lemma MulNonNegative(x: real, y: real)
    requires 0.0 <= x && 0.0 <= y
    ensures 0.0 <= x * y
  {
  }

  /** Multiplying by a non-negative factor keeps `<=`. */
  lemma MulLeft(c: real, a: real, b: real)
    requires 0.0 <= c && a <= b
    ensures c * a <= c * b
  {
    MulNonNegative(c, b - a);
  }

  /** For a non-negative `b`, `a * a <= b * b` forces `a <= b`. */
  lemma SquareLe(a: real, b: real)
    requires 0.0 <= b && a * a <= b * b
    ensures a <= b
  {
    if a > b {
      assert a * a - b * b == (a - b) * (a + b);
      MulPos(a - b, a + b);
    }
  }

  /** The square root of a square of a non-negative number is that number. */
  lemma SqrtOfSquare(sqrt: real -> real, a: real)
    requires 0.0 <= a && SqrtAt(sqrt, a * a)
    ensures sqrt(a * a) == a
  {
    SquareLe(sqrt(a * a), a);
    SquareLe(a, sqrt(a * a));
  }

  /** `sqrt` at 0 is 0. */
  lemma SqrtOfZero(sqrt: real -> real)
    requires SqrtAt(sqrt, 0.0)
    ensures sqrt(0.0) == 0.0
  {
    SquareZero(sqrt(0.0));
  }

  lemma SquareZero(y: real)
    requires 0.0 <= y && y * y == 0.0
    ensures y == 0.0
  {
    SquareLe(y, 0.0);
  }

  /** For non-negative `a` and `b`, `a * a < b * b` forces `a < b`. */
  lemma SquareLt(a: real, b: real)
    requires 0.0 <= a && 0.0 <= b && a * a < b * b
    ensures a < b
  {
    if b <= a {
      assert a * a - b * b == (a - b) * (a + b);
      MulNonNegative(a - b, a + b);
    }
  }

  /**
    * The scalar core of "growing a sphere keeps the points it contained":
    * with `uu = |u|^2`, `ud = u . d`, `dd = |d|^2 = dist^2` and the centre
    * moved by `k d`, where `k dist = delta`, the point `u` stays within
    * `r + delta`.
    */
  lemma GrowBound(uu: real, ud: real, dd: real, k: real, dist: real, r: real, delta: real)
    requires 0.0 <= r && 0.0 <= uu <= r * r && 0.0 <= dd
    requires ud * ud <= uu * dd
    requires dd == dist * dist && 0.0 < k && k * dist == delta && 0.0 <= delta
    ensures uu - 2.0 * (k * ud) + k * k * dd <= (r + delta) * (r + delta)
  {
    var a := k * ud;
    assert k * k * dd == delta * delta by {
      assert k * k * (dist * dist) == (k * dist) * (k * dist);
    }
    MulLeft(k * k, ud * ud, uu * dd);
    assert a * a == k * k * (ud * ud);
    assert k * k * (uu * dd) == uu * (delta * delta) by {
      assert k * k * (uu * dd) == uu * (k * k * dd);
    }
    MulNonNegative(delta, delta);
    MulLeft(delta * delta, uu, r * r);
    assert (-a) * (-a) <= (r * delta) * (r * delta) by {
      assert (r * delta) * (r * delta) == (delta * delta) * (r * r);
      assert (-a) * (-a) == a * a;
    }
    MulNonNegative(r, delta);
    SquareLe(-a, r * delta);
  }

  /**
    * Moving a centre `c` by `k d`, with `|d| = dist` and `k dist = delta`,
    * keeps a point `x` that was within `r` of it within `r + delta`.
    */
  lemma MovedWithin(x: Vec3, c: Vec3, d: Vec3, k: real, dist: real, r: real, delta: real)
    requires 0.0 <= r && DistSq(x, c) <= r * r
    requires Dot(d, d) == dist * dist && 0.0 < k && k * dist == delta && 0.0 <= delta
    ensures DistSq(x, Add(c, Scale(d, k))) <= (r + delta) * (r + delta)
  {
    var u := Sub(x, c);
    var w := Scale(d, k);
    SubMoved(x, c, w);
    DotSubSelf(u, w);
    DotScaleRight(u, d, k);
    DotScaleSelf(d, k);
    CauchySchwarz(u, d);
    DotSelfNonNegative(u);
    DotSelfNonNegative(d);
    GrowBound(Dot(u, u), Dot(u, d), Dot(d, d), k, dist, r, delta);
  }
}
