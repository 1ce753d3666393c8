/**
  * The bounding-sphere solver behind mesh centring (`SphereOfSphereAndPt`
  * and `FindCenterOfBoundingSphere` in src/Exporter.cpp): Ritter's method
  * with the iterative refinement described in Ericson's "Real-Time Collision
  * Detection".
  *
  * The method `FindCenterOfBoundingSphere` runs the algorithm on an array
  * copy of the points and is proved equal to the function
  * `BoundingSphereOf`; the lemmas then show, over the reals, that every
  * sphere the algorithm keeps contains all the points, that refinement never
  * makes the kept sphere larger, and that the working copy stays a
  * permutation of the points.
  */
module BoundingSphere {
  import opened Geometry

  datatype Sphere = Sphere(center: Vec3, radius: real)

  /** `p` lies inside or on the sphere. */
  predicate Contains(s: Sphere, p: Vec3) {
    DistSq(p, s.center) <= s.radius * s.radius
  }

  /** A sphere of non-negative radius contains its own centre. */
  lemma ContainsCenter(s: Sphere)
    requires 0.0 <= s.radius
    ensures Contains(s, s.center)
  {
    DistSqSelf(s.center);
    MulNonNegative(s.radius, s.radius);
  }

  /**
    * Grows `s` just enough to reach `p` when `p` lies outside it: the new
    * radius is the mean of the old radius and the distance to `p`, and the
    * centre moves towards `p` by the difference. A point inside or on the
    * sphere leaves it unchanged.
    */
  function SphereOfSphereAndPt(s: Sphere, p: Vec3, sqrt: real -> real): (r: Sphere)
    requires (forall x :: SqrtAt(sqrt, x)) && 0.0 <= s.radius
    ensures Contains(s, p) ==> r == s
    ensures s.radius <= r.radius
  {
    var d := Sub(p, s.center);
    var distSqrd := Dot(d, d);
    if distSqrd > s.radius * s.radius then
      var dist := sqrt(distSqrd);
      assert SqrtAt(sqrt, distSqrd);
      SquareLt(s.radius, dist);
      var newRadius := (s.radius + dist) * 0.5;
      var k := (newRadius - s.radius) / dist;
      Sphere(Add(s.center, Scale(d, k)), newRadius)
    else
      s
  }

  /**
    * The shape of a grow step on a point outside the sphere: the distance
    * `dist` to the point exceeds the old radius, the new radius is the mean
    * of the two, and the centre moves by the fraction `k` of the way to the
    * point with `k * dist` the radius increase.
    */
  lemma GrowShape(s: Sphere, p: Vec3, sqrt: real -> real)
    requires (forall x :: SqrtAt(sqrt, x)) && 0.0 <= s.radius && !Contains(s, p)
    ensures var d := Sub(p, s.center);
      var dist := sqrt(Dot(d, d));
      var r := SphereOfSphereAndPt(s, p, sqrt);
      s.radius < dist && dist * dist == Dot(d, d) &&
      r.radius == (s.radius + dist) * 0.5 &&
      r.center == Add(s.center, Scale(d, (r.radius - s.radius) / dist)) &&
      (r.radius - s.radius) / dist * dist == r.radius - s.radius
  {
    var d := Sub(p, s.center);
    assert SqrtAt(sqrt, Dot(d, d));
    SquareLt(s.radius, sqrt(Dot(d, d)));
  }

  /** After growing, `p` is inside; if it was outside, it is exactly on the new sphere. */
  lemma GrowReachesPoint(s: Sphere, p: Vec3, sqrt: real -> real)
    requires (forall x :: SqrtAt(sqrt, x)) && 0.0 <= s.radius
    ensures Contains(SphereOfSphereAndPt(s, p, sqrt), p)
    ensures !Contains(s, p) ==>
      var r := SphereOfSphereAndPt(s, p, sqrt);
      DistSq(p, r.center) == r.radius * r.radius
  {
    var r := SphereOfSphereAndPt(s, p, sqrt);
    if !Contains(s, p) {
      GrowShape(s, p, sqrt);
      var d := Sub(p, s.center);
      var dist := sqrt(Dot(d, d));
      var k := (r.radius - s.radius) / dist;
      var t := 1.0 - k;
      SubTowards(p, s.center, k);
      DotScaleSelf(d, t);
      assert t * dist == r.radius;
      assert t * t * (dist * dist) == (t * dist) * (t * dist);
    }
  }

  /** Growing to a point outside the sphere strictly enlarges it, to the mean of radius and distance. */
  lemma GrowOutside(s: Sphere, p: Vec3, sqrt: real -> real)
    requires (forall x :: SqrtAt(sqrt, x)) && 0.0 <= s.radius && !Contains(s, p)
    ensures var r := SphereOfSphereAndPt(s, p, sqrt);
      s.radius < r.radius && r.radius * r.radius < DistSq(p, s.center)
  {
    GrowShape(s, p, sqrt);
    var d := Sub(p, s.center);
    var dist := sqrt(Dot(d, d));
    var r := SphereOfSphereAndPt(s, p, sqrt);
    assert r.radius < dist;
    SquareLt(r.radius, dist);
  }

  /** Growing never loses a point: the new sphere contains the old one. */
  lemma GrowKeepsContained(s: Sphere, p: Vec3, sqrt: real -> real, x: Vec3)
    requires (forall x :: SqrtAt(sqrt, x)) && 0.0 <= s.radius
    requires Contains(s, x)
    ensures Contains(SphereOfSphereAndPt(s, p, sqrt), x)
  {
    if !Contains(s, p) {
      var r := SphereOfSphereAndPt(s, p, sqrt);
      GrowShape(s, p, sqrt);
      var d := Sub(p, s.center);
      var dist := sqrt(Dot(d, d));
      var delta := r.radius - s.radius;
      var k := delta / dist;
      assert 0.0 < k;
      ShiftedContains(x, s, d, k, dist, delta);
    }
  }

  /**
    * Moving the centre by `k` times a vector of length `dist` and enlarging
    * the radius by `k * dist` keeps every point inside.
    */
  lemma ShiftedContains(x: Vec3, s: Sphere, d: Vec3, k: real, dist: real, delta: real)
    requires Contains(s, x) && 0.0 <= s.radius
    requires Dot(d, d) == dist * dist && 0.0 < k && k * dist == delta && 0.0 <= delta
    ensures Contains(Sphere(Add(s.center, Scale(d, k)), s.radius + delta), x)
  {
    MovedWithin(x, s.center, d, k, dist, s.radius, delta);
  }

  // ---------------------------------------------------------------------
  // The six extremal-index scans and the choice of the seeding pair
  // ---------------------------------------------------------------------

  datatype Axis = X | Y | Z

  function Coord(p: Vec3, a: Axis): real {
    match a
    case X => p.x
    case Y => p.y
    case Z => p.z
  }

  /** `r` is the first index of `pts[..m]` whose coordinate on `a` is smallest. */
  ghost predicate IsFirstMin(pts: seq<Vec3>, a: Axis, m: nat, r: nat) {
    && r < m <= |pts|
    && (forall j :: 0 <= j < m ==> Coord(pts[r], a) <= Coord(pts[j], a))
    && (forall j :: 0 <= j < r ==> Coord(pts[r], a) < Coord(pts[j], a))
  }

  /** `r` is the first index of `pts[..m]` whose coordinate on `a` is largest. */
  ghost predicate IsFirstMax(pts: seq<Vec3>, a: Axis, m: nat, r: nat) {
    && r < m <= |pts|
    && (forall j :: 0 <= j < m ==> Coord(pts[j], a) <= Coord(pts[r], a))
    && (forall j :: 0 <= j < r ==> Coord(pts[j], a) < Coord(pts[r], a))
  }

  /** The index the strict `<` scan holds after looking at `pts[..m]`. */
  function ScanMin(pts: seq<Vec3>, a: Axis, m: nat): (r: nat)
    requires 1 <= m <= |pts|
    ensures r < m
  {
    if m == 1 then 0
    else
      var c := ScanMin(pts, a, m - 1);
      if Coord(pts[m - 1], a) < Coord(pts[c], a) then m - 1 else c
  }

  /** The index the strict `>` scan holds after looking at `pts[..m]`. */
  function ScanMax(pts: seq<Vec3>, a: Axis, m: nat): (r: nat)
    requires 1 <= m <= |pts|
    ensures r < m
  {
    if m == 1 then 0
    else
      var c := ScanMax(pts, a, m - 1);
      if Coord(pts[m - 1], a) > Coord(pts[c], a) then m - 1 else c
  }

  /** Because the comparison is strict, the scan keeps the FIRST minimum, and it is the only such index. */
  lemma {:induction false} ScanMinIsFirstMin(pts: seq<Vec3>, a: Axis, m: nat)
    requires 1 <= m <= |pts|
    ensures IsFirstMin(pts, a, m, ScanMin(pts, a, m))
    ensures forall r :: IsFirstMin(pts, a, m, r) ==> r == ScanMin(pts, a, m)
  {
    if m > 1 {
      ScanMinIsFirstMin(pts, a, m - 1);
    }
    var s := ScanMin(pts, a, m);
    forall r | IsFirstMin(pts, a, m, r)
      ensures r == s
    {
    }
  }

  /** Because the comparison is strict, the scan keeps the FIRST maximum, and it is the only such index. */
  lemma {:induction false} ScanMaxIsFirstMax(pts: seq<Vec3>, a: Axis, m: nat)
    requires 1 <= m <= |pts|
    ensures IsFirstMax(pts, a, m, ScanMax(pts, a, m))
    ensures forall r :: IsFirstMax(pts, a, m, r) ==> r == ScanMax(pts, a, m)
  {
    if m > 1 {
      ScanMaxIsFirstMax(pts, a, m - 1);
    }
    var s := ScanMax(pts, a, m);
    forall r | IsFirstMax(pts, a, m, r)
      ensures r == s
    {
    }
  }

  /** The indices `minx, maxx, miny, maxy, minz, maxz`. */
  datatype Extremes = Extremes(minx: nat, maxx: nat, miny: nat, maxy: nat, minz: nat, maxz: nat)

  /**
    * The six scans over all the points, each an index into `pts`;
    * `ExtremalPoints` shows they are, on each axis, the first index holding
    * the least and the first holding the greatest coordinate.
    */
  function ExtremesOf(pts: seq<Vec3>): (e: Extremes)
    requires 1 <= |pts|
    ensures ValidExtremes(pts, e)
  {
    var n := |pts|;
    Extremes(ScanMin(pts, X, n), ScanMax(pts, X, n),
             ScanMin(pts, Y, n), ScanMax(pts, Y, n),
             ScanMin(pts, Z, n), ScanMax(pts, Z, n))
  }

  predicate ValidExtremes(pts: seq<Vec3>, e: Extremes) {
    && e.minx < |pts| && e.maxx < |pts|
    && e.miny < |pts| && e.maxy < |pts|
    && e.minz < |pts| && e.maxz < |pts|
  }

  /**
    * The single scan over the points that finds all six extremal indices,
    * each starting at index 0.
    */
  method ExtremalPoints(pts: seq<Vec3>) returns (e: Extremes)
    requires 1 <= |pts|
    ensures e == ExtremesOf(pts)
    ensures ValidExtremes(pts, e)
    ensures IsFirstMin(pts, X, |pts|, e.minx) && IsFirstMax(pts, X, |pts|, e.maxx)
    ensures IsFirstMin(pts, Y, |pts|, e.miny) && IsFirstMax(pts, Y, |pts|, e.maxy)
    ensures IsFirstMin(pts, Z, |pts|, e.minz) && IsFirstMax(pts, Z, |pts|, e.maxz)
  {
    var minx, maxx, miny, maxy, minz, maxz := 0, 0, 0, 0, 0, 0;
    for i := 1 to |pts|
      invariant minx == ScanMin(pts, X, i) && maxx == ScanMax(pts, X, i)
      invariant miny == ScanMin(pts, Y, i) && maxy == ScanMax(pts, Y, i)
      invariant minz == ScanMin(pts, Z, i) && maxz == ScanMax(pts, Z, i)
    {
      var p := pts[i];
      if p.x < pts[minx].x { minx := i; }
      if p.x > pts[maxx].x { maxx := i; }
      if p.y < pts[miny].y { miny := i; }
      if p.y > pts[maxy].y { maxy := i; }
      if p.z < pts[minz].z { minz := i; }
      if p.z > pts[maxz].z { maxz := i; }
    }
    e := Extremes(minx, maxx, miny, maxy, minz, maxz);
    ScanMinIsFirstMin(pts, X, |pts|);
    ScanMaxIsFirstMax(pts, X, |pts|);
    ScanMinIsFirstMin(pts, Y, |pts|);
    ScanMaxIsFirstMax(pts, Y, |pts|);
    ScanMinIsFirstMin(pts, Z, |pts|);
    ScanMaxIsFirstMax(pts, Z, |pts|);
  }

  /** The (min, max) pair of extremal indices along an axis. */
  function AxisPair(e: Extremes, a: Axis): (nat, nat) {
    match a
    case X => (e.minx, e.maxx)
    case Y => (e.miny, e.maxy)
    case Z => (e.minz, e.maxz)
  }

  /** Squared distance between the two extremal points of an axis. */
  function Extent(pts: seq<Vec3>, e: Extremes, a: Axis): real
    requires ValidExtremes(pts, e)
  {
    var (mn, mx) := AxisPair(e, a);
    var d := Sub(pts[mx], pts[mn]);
    Dot(d, d)
  }

  /** The squared extent along `b` is strictly greater than along both other axes. */
  ghost predicate StrictlyLargest(pts: seq<Vec3>, e: Extremes, b: Axis)
    requires ValidExtremes(pts, e)
  {
    forall c :: c != b ==> Extent(pts, e, c) < Extent(pts, e, b)
  }

  lemma StrictlyLargestCases(pts: seq<Vec3>, e: Extremes)
    requires ValidExtremes(pts, e)
    ensures StrictlyLargest(pts, e, Y) <==> Extent(pts, e, Y) > Extent(pts, e, X) && Extent(pts, e, Y) > Extent(pts, e, Z)
    ensures StrictlyLargest(pts, e, Z) <==> Extent(pts, e, Z) > Extent(pts, e, X) && Extent(pts, e, Z) > Extent(pts, e, Y)
  {
    if StrictlyLargest(pts, e, Y) {
      assert X != Y && Z != Y;
    }
    if StrictlyLargest(pts, e, Z) {
      assert X != Z && Y != Z;
    }
  }

  /**
    * The axis whose extremal pair seeds the sphere. Y or Z is chosen exactly
    * when its squared extent is strictly greater than both others; otherwise
    * X, so a tie between Y and Z above X still gives X.
    */
  function ChosenAxis(pts: seq<Vec3>, e: Extremes): (a: Axis)
    requires ValidExtremes(pts, e)
    ensures a != X ==> StrictlyLargest(pts, e, a)
    ensures a == X <==> !StrictlyLargest(pts, e, Y) && !StrictlyLargest(pts, e, Z)
    ensures Extent(pts, e, Y) == Extent(pts, e, Z) ==> a == X
  {
    StrictlyLargestCases(pts, e);
    var dx, dy, dz := Extent(pts, e, X), Extent(pts, e, Y), Extent(pts, e, Z);
    var a := X;
    var a := if dy > dx && dy > dz then Y else a;
    if dz > dx && dz > dy then Z else a
  }

  /** The starting sphere: centred between the chosen pair, reaching its maximum point. */
  function SeedSphere(pts: seq<Vec3>, e: Extremes, sqrt: real -> real): (s: Sphere)
    requires ValidExtremes(pts, e) && (forall x :: SqrtAt(sqrt, x))
    ensures 0.0 <= s.radius
  {
    var (mn, mx) := AxisPair(e, ChosenAxis(pts, e));
    var center := Scale(Add(pts[mn], pts[mx]), 0.5);
    var dc := Sub(pts[mx], center);
    DotSelfNonNegative(dc);
    assert SqrtAt(sqrt, Dot(dc, dc));
    Sphere(center, sqrt(Dot(dc, dc)))
  }

  /** Ritter's seed for the whole point set. */
  function RitterSeed(pts: seq<Vec3>, sqrt: real -> real): (s: Sphere)
    requires 1 <= |pts| && (forall x :: SqrtAt(sqrt, x))
    ensures 0.0 <= s.radius
  {
    SeedSphere(pts, ExtremesOf(pts), sqrt)
  }

  // ---------------------------------------------------------------------
  // Growing over a sequence of points
  // ---------------------------------------------------------------------

  /** `SphereOfSphereAndPt` applied to each point of `pts` in order. */
  function GrowOver(s: Sphere, pts: seq<Vec3>, sqrt: real -> real): (r: Sphere)
    requires (forall x :: SqrtAt(sqrt, x)) && 0.0 <= s.radius
    ensures s.radius <= r.radius
    decreases |pts|
  {
    if pts == [] then s
    else GrowOver(SphereOfSphereAndPt(s, pts[0], sqrt), pts[1..], sqrt)
  }

  /** After growing over `pts`, the sphere contains every point of `pts` and everything it contained before. */
  lemma {:induction false} GrowOverContains(s: Sphere, pts: seq<Vec3>, sqrt: real -> real)
    requires (forall x :: SqrtAt(sqrt, x)) && 0.0 <= s.radius
    ensures forall i :: 0 <= i < |pts| ==> Contains(GrowOver(s, pts, sqrt), pts[i])
    decreases |pts|
  {
    if pts != [] {
      var s1 := SphereOfSphereAndPt(s, pts[0], sqrt);
      GrowOverContains(s1, pts[1..], sqrt);
      GrowReachesPoint(s, pts[0], sqrt);
      GrowOverKeeps(s1, pts[1..], sqrt, pts[0]);
      forall i | 1 <= i < |pts|
        ensures Contains(GrowOver(s, pts, sqrt), pts[i])
      {
        assert pts[i] == pts[1..][i - 1];
      }
    }
  }

  lemma {:induction false} GrowOverKeeps(s: Sphere, pts: seq<Vec3>, sqrt: real -> real, x: Vec3)
    requires (forall x :: SqrtAt(sqrt, x)) && 0.0 <= s.radius && Contains(s, x)
    ensures Contains(GrowOver(s, pts, sqrt), x)
    decreases |pts|
  {
    if pts != [] {
      GrowKeepsContained(s, pts[0], sqrt, x);
      GrowOverKeeps(SphereOfSphereAndPt(s, pts[0], sqrt), pts[1..], sqrt, x);
    }
  }

  // ---------------------------------------------------------------------
  // The random source and one refinement pass
  // ---------------------------------------------------------------------

  /**
    * `std::uniform_int_distribution<>(lo, hi)` applied to the generator:
    * `raw(k)` stands for the value behind the `k`-th call of a distribution,
    * and the pick is that value brought into `[lo, hi]`.
    */
  function UniformPick(raw: nat -> nat, k: nat, lo: int, hi: int): (j: int)
    requires lo <= hi
    ensures lo <= j <= hi
  {
    lo + raw(k) % (hi - lo + 1)
  }

  /**
    * The `static std::mt19937` of the refinement loop. It is created once and
    * keeps its state from call to call (and so from mesh to mesh); `drawn`
    * counts the distribution calls made on it so far and `raw(k)` stands for
    * the value behind call `k`.
    */
  class Generator {
    const raw: nat -> nat
    var drawn: nat

    constructor (raw: nat -> nat)
      ensures this.raw == raw && drawn == 0
    {
      this.raw := raw;
      drawn := 0;
    }

    method Uniform(lo: int, hi: int) returns (j: int)
      requires lo <= hi
      modifies this
      ensures drawn == old(drawn) + 1
      ensures j == UniformPick(raw, old(drawn), lo, hi)
    {
      j := UniformPick(raw, drawn, lo, hi);
      drawn := drawn + 1;
    }
  }

  /**
    * One refinement pass from index `i` on: swap `copy[i]` with a drawn index
    * in `[i+1, n-1]` and grow over the new `copy[i]`; the last point is grown
    * over without a swap. Gives the sphere and the reordered copy.
    */
  function PassFrom(s: Sphere, copy: seq<Vec3>, i: nat, raw: nat -> nat, drawn: nat, sqrt: real -> real)
    : (r: (Sphere, seq<Vec3>))
    requires (forall x :: SqrtAt(sqrt, x)) && 0.0 <= s.radius && i < |copy|
    ensures s.radius <= r.0.radius && |r.1| == |copy|
    decreases |copy| - i
  {
    if i == |copy| - 1 then
      (SphereOfSphereAndPt(s, copy[i], sqrt), copy)
    else
      var j := UniformPick(raw, drawn, i + 1, |copy| - 1);
      var swapped := copy[i := copy[j]][j := copy[i]];
      PassFrom(SphereOfSphereAndPt(s, swapped[i], sqrt), swapped, i + 1, raw, drawn + 1, sqrt)
  }

  /**
    * A pass only swaps (the copy stays a permutation and its prefix before
    * `i` is untouched), and the sphere it ends with contains every point of
    * the reordered copy from `i` on.
    */
  lemma PassFromProperties(s: Sphere, copy: seq<Vec3>, i: nat, raw: nat -> nat, drawn: nat, sqrt: real -> real)
    requires (forall x :: SqrtAt(sqrt, x)) && 0.0 <= s.radius && i < |copy|
    ensures var (w, c) := PassFrom(s, copy, i, raw, drawn, sqrt);
      && multiset(c) == multiset(copy)
      && c[..i] == copy[..i]
      && forall k :: i <= k < |c| ==> Contains(w, c[k])
  {
    PassFromReorders(s, copy, i, raw, drawn, sqrt);
    PassFromCovers(s, copy, i, raw, drawn, sqrt);
  }

  /** A pass only swaps: the copy stays a permutation and its prefix before `i` is untouched. */
  lemma {:induction false} PassFromReorders(s: Sphere, copy: seq<Vec3>, i: nat, raw: nat -> nat, drawn: nat, sqrt: real -> real)
    requires (forall x :: SqrtAt(sqrt, x)) && 0.0 <= s.radius && i < |copy|
    ensures var c := PassFrom(s, copy, i, raw, drawn, sqrt).1;
      multiset(c) == multiset(copy) && c[..i] == copy[..i]
    decreases |copy| - i
  {
    if i < |copy| - 1 {
      var j := UniformPick(raw, drawn, i + 1, |copy| - 1);
      var swapped := copy[i := copy[j]][j := copy[i]];
      var s1 := SphereOfSphereAndPt(s, swapped[i], sqrt);
      PassFromReorders(s1, swapped, i + 1, raw, drawn + 1, sqrt);
      var c := PassFrom(s1, swapped, i + 1, raw, drawn + 1, sqrt).1;
      assert c[..i] == swapped[..i] by {
        assert c[..i] == c[..i + 1][..i];
        assert swapped[..i] == swapped[..i + 1][..i];
      }
      SwapPermutes(copy, i, j);
    }
  }

  /** The sphere a pass ends with contains every point of the reordered copy from `i` on. */
  lemma {:induction false} PassFromCovers(s: Sphere, copy: seq<Vec3>, i: nat, raw: nat -> nat, drawn: nat, sqrt: real -> real)
    requires (forall x :: SqrtAt(sqrt, x)) && 0.0 <= s.radius && i < |copy|
    ensures var (w, c) := PassFrom(s, copy, i, raw, drawn, sqrt);
      forall k :: i <= k < |c| ==> Contains(w, c[k])
    decreases |copy| - i
  {
    if i == |copy| - 1 {
      GrowReachesPoint(s, copy[i], sqrt);
    } else {
      var j := UniformPick(raw, drawn, i + 1, |copy| - 1);
      var swapped := copy[i := copy[j]][j := copy[i]];
      var s1 := SphereOfSphereAndPt(s, swapped[i], sqrt);
      PassFromCovers(s1, swapped, i + 1, raw, drawn + 1, sqrt);
      PassFromReorders(s1, swapped, i + 1, raw, drawn + 1, sqrt);
      var (w, c) := PassFrom(s1, swapped, i + 1, raw, drawn + 1, sqrt);
      assert c[i] == swapped[i] by {
        assert c[..i + 1][i] == swapped[..i + 1][i];
      }
      GrowReachesPoint(s, swapped[i], sqrt);
      PassFromKeeps(s1, swapped, i + 1, raw, drawn + 1, sqrt, swapped[i]);
    }
  }

  /** `std::swap` of two entries: a permutation that leaves the entries before both alone. */
  lemma SwapPermutes(copy: seq<Vec3>, i: nat, j: nat)
    requires i < j < |copy|
    ensures var swapped := copy[i := copy[j]][j := copy[i]];
      multiset(swapped) == multiset(copy) && swapped[..i] == copy[..i]
  {
  }

  lemma {:induction false} PassFromKeeps(s: Sphere, copy: seq<Vec3>, i: nat, raw: nat -> nat, drawn: nat, sqrt: real -> real, x: Vec3)
    requires (forall x :: SqrtAt(sqrt, x)) && 0.0 <= s.radius && i < |copy| && Contains(s, x)
    ensures Contains(PassFrom(s, copy, i, raw, drawn, sqrt).0, x)
    decreases |copy| - i
  {
    if i == |copy| - 1 {
      GrowKeepsContained(s, copy[i], sqrt, x);
    } else {
      var j := UniformPick(raw, drawn, i + 1, |copy| - 1);
      var swapped := copy[i := copy[j]][j := copy[i]];
      GrowKeepsContained(s, swapped[i], sqrt, x);
      PassFromKeeps(SphereOfSphereAndPt(s, swapped[i], sqrt), swapped, i + 1, raw, drawn + 1, sqrt, x);
    }
  }

  // ---------------------------------------------------------------------
  // Sixteen passes with best-so-far tracking
  // ---------------------------------------------------------------------

  const NumIter: nat := 16

  /** Each pass starts by shrinking the working radius by 5%. */
  const Shrink: real := 0.95

  /**
    * Passes `k .. NumIter - 1`. `best` is the sphere kept so far and `work`
    * the working sphere; a pass's result replaces `best` only when its radius
    * is strictly smaller, and `work` and `copy` carry over to the next pass
    * either way.
    */
  function RefineFrom(k: nat, best: Sphere, work: Sphere, copy: seq<Vec3>, raw: nat -> nat, drawn: nat, sqrt: real -> real)
    : Sphere
    requires (forall x :: SqrtAt(sqrt, x)) && 0.0 <= work.radius && 1 <= |copy| && k <= NumIter
    decreases NumIter - k
  {
    if k == NumIter then best
    else
      var (w, c) := Pass(work, copy, raw, drawn, sqrt);
      var best' := if w.radius < best.radius then w else best;
      RefineFrom(k + 1, best', w, c, raw, drawn + |copy| - 1, sqrt)
  }

  /** One pass of the refinement: shrink the working sphere by 5%, then pass over the whole copy. */
  function Pass(work: Sphere, copy: seq<Vec3>, raw: nat -> nat, drawn: nat, sqrt: real -> real): (r: (Sphere, seq<Vec3>))
    requires (forall x :: SqrtAt(sqrt, x)) && 0.0 <= work.radius && 1 <= |copy|
    ensures 0.0 <= r.0.radius && |r.1| == |copy|
  {
    PassFrom(Sphere(work.center, work.radius * Shrink), copy, 0, raw, drawn, sqrt)
  }

  /** The sphere `FindCenterOfBoundingSphere` ends with; the generator has made `drawn` draws before it. */
  function BoundingSphereOf(pts: seq<Vec3>, raw: nat -> nat, drawn: nat, sqrt: real -> real): Sphere
    requires 1 <= |pts| && (forall x :: SqrtAt(sqrt, x))
  {
    var s := GrowOver(RitterSeed(pts, sqrt), pts, sqrt);
    RefineFrom(0, s, s, pts, raw, drawn, sqrt)
  }

  /** A sphere containing every point of a permutation of `pts` contains every point of `pts`. */
  lemma PermutedContained(w: Sphere, c: seq<Vec3>, pts: seq<Vec3>)
    requires multiset(c) == multiset(pts)
    requires forall k :: 0 <= k < |c| ==> Contains(w, c[k])
    ensures forall i :: 0 <= i < |pts| ==> Contains(w, pts[i])
  {
    forall i | 0 <= i < |pts|
      ensures Contains(w, pts[i])
    {
      assert pts[i] in multiset(c);
      var m :| 0 <= m < |c| && c[m] == pts[i];
    }
  }

  /**
    * One pass of the refinement, ending with `(w, c)`, keeps the copy a
    * permutation of the points, and the sphere kept after it, `kept`, one
    * that contains them all.
    */
  lemma OnePassProperties(best: Sphere, work: Sphere, copy: seq<Vec3>, raw: nat -> nat, drawn: nat,
                          sqrt: real -> real, pts: seq<Vec3>, w: Sphere, c: seq<Vec3>, kept: Sphere)
    requires (forall x :: SqrtAt(sqrt, x)) && 0.0 <= work.radius && 1 <= |copy|
    requires multiset(copy) == multiset(pts)
    requires 0.0 <= best.radius && forall i :: 0 <= i < |pts| ==> Contains(best, pts[i])
    requires (w, c) == Pass(work, copy, raw, drawn, sqrt)
    requires kept == if w.radius < best.radius then w else best
    ensures 0.0 <= w.radius && 1 <= |c| && multiset(c) == multiset(pts)
    ensures 0.0 <= kept.radius && forall i :: 0 <= i < |pts| ==> Contains(kept, pts[i])
  {
    PassFromProperties(Sphere(work.center, work.radius * Shrink), copy, 0, raw, drawn, sqrt);
    if w.radius < best.radius {
      PermutedContained(w, c, pts);
    }
  }

  /**
    * Refinement keeps a sphere that contains all the points, never lets the
    * kept radius grow, and changes the kept sphere only for one whose radius
    * is strictly smaller; `r` is the sphere passes `k ..` end with.
    */
  lemma {:induction false} RefineFromProperties(k: nat, best: Sphere, work: Sphere, copy: seq<Vec3>,
                                                raw: nat -> nat, drawn: nat, sqrt: real -> real, pts: seq<Vec3>, r: Sphere)
    requires (forall x :: SqrtAt(sqrt, x)) && 0.0 <= work.radius && 1 <= |copy| && k <= NumIter
    requires multiset(copy) == multiset(pts)
    requires 0.0 <= best.radius && forall i :: 0 <= i < |pts| ==> Contains(best, pts[i])
    requires r == RefineFrom(k, best, work, copy, raw, drawn, sqrt)
    ensures forall i :: 0 <= i < |pts| ==> Contains(r, pts[i])
    ensures 0.0 <= r.radius
    ensures r == best || r.radius < best.radius
    decreases NumIter - k
  {
    if k < NumIter {
      var (w, c) := Pass(work, copy, raw, drawn, sqrt);
      var best' := if w.radius < best.radius then w else best;
      OnePassProperties(best, work, copy, raw, drawn, sqrt, pts, w, c, best');
      RefineFromStep(k, best, work, copy, raw, drawn, sqrt, w, c);
      RefineFromProperties(k + 1, best', w, c, raw, drawn + |copy| - 1, sqrt, pts, r);
    }
  }

  /**
    * Over the reals, the sphere the solver ends with contains every point,
    * and it is never larger than the sphere Ritter's single growing pass gives.
    */
  lemma BoundingSphereContainsAll(pts: seq<Vec3>, raw: nat -> nat, drawn: nat, sqrt: real -> real)
    requires 1 <= |pts| && (forall x :: SqrtAt(sqrt, x))
    ensures forall i :: 0 <= i < |pts| ==> Contains(BoundingSphereOf(pts, raw, drawn, sqrt), pts[i])
    ensures 0.0 <= BoundingSphereOf(pts, raw, drawn, sqrt).radius
    ensures BoundingSphereOf(pts, raw, drawn, sqrt).radius <= GrowOver(RitterSeed(pts, sqrt), pts, sqrt).radius
  {
    var s := GrowOver(RitterSeed(pts, sqrt), pts, sqrt);
    GrowOverContains(RitterSeed(pts, sqrt), pts, sqrt);
    RefineFromProperties(0, s, s, pts, raw, drawn, sqrt, pts, BoundingSphereOf(pts, raw, drawn, sqrt));
  }

  /** The midpoint of a point and itself is that point. */
  lemma MidpointOfSame(p: Vec3)
    ensures Scale(Add(p, p), 0.5) == p
  {
  }

  /** The seed of a one-point set is the seed of the pair (0, 0) on every axis. */
  lemma SingleSeedPair(pts: seq<Vec3>, sqrt: real -> real)
    requires |pts| == 1 && (forall x :: SqrtAt(sqrt, x))
    ensures RitterSeed(pts, sqrt) == SeedSphere(pts, Extremes(0, 0, 0, 0, 0, 0), sqrt)
  {
  }

  /** The seed on the pair (0, 0) is centred on the midpoint of point 0 and itself. */
  lemma SeedOnSamePoint(pts: seq<Vec3>, sqrt: real -> real, center: Vec3, dc: Vec3)
    requires 1 <= |pts| && (forall x :: SqrtAt(sqrt, x))
    requires center == Scale(Add(pts[0], pts[0]), 0.5) && dc == Sub(pts[0], center)
    ensures SeedSphere(pts, Extremes(0, 0, 0, 0, 0, 0), sqrt) == Sphere(center, sqrt(Dot(dc, dc)))
  {
  }

  /** The sphere reaching its own centre has radius 0. */
  lemma ZeroRadius(sqrt: real -> real, dc: Vec3)
    requires SqrtAt(sqrt, 0.0) && dc == Origin
    ensures sqrt(Dot(dc, dc)) == 0.0
  {
    assert Dot(dc, dc) == 0.0;
    SqrtOfZero(sqrt);
  }

  /** A one-point set seeds the sphere centred on its point with radius 0. */
  lemma SingleSeed(pts: seq<Vec3>, sqrt: real -> real)
    requires |pts| == 1 && (forall x :: SqrtAt(sqrt, x))
    ensures RitterSeed(pts, sqrt) == Sphere(pts[0], 0.0)
  {
    var center := Scale(Add(pts[0], pts[0]), 0.5);
    MidpointOfSame(pts[0]);
    var dc := Sub(pts[0], center);
    SingleSeedPair(pts, sqrt);
    SeedOnSamePoint(pts, sqrt, center, dc);
    assert dc == Origin;
    assert SqrtAt(sqrt, 0.0);
    ZeroRadius(sqrt, dc);
  }

  /** Growing over a single point the sphere already contains leaves it as it is. */
  lemma GrowOverContained(s: Sphere, pts: seq<Vec3>, sqrt: real -> real)
    requires (forall x :: SqrtAt(sqrt, x)) && 0.0 <= s.radius && |pts| == 1 && Contains(s, pts[0])
    ensures GrowOver(s, pts, sqrt) == s
  {
    assert pts[1..] == [];
  }

  /** Ritter's seed and growing pass over a single point give the sphere of radius 0 on it. */
  lemma SingleGrown(pts: seq<Vec3>, sqrt: real -> real)
    requires |pts| == 1 && (forall x :: SqrtAt(sqrt, x))
    ensures GrowOver(RitterSeed(pts, sqrt), pts, sqrt) == Sphere(pts[0], 0.0)
  {
    var s := Sphere(pts[0], 0.0);
    assert Sub(pts[0], pts[0]) == Origin;
    ContainsCenter(s);
    GrowOverContained(s, pts, sqrt);
    SingleSeed(pts, sqrt);
  }

  /** The refinement passes over a single point keep the sphere of radius 0 on it. */
  lemma SingleRefined(pts: seq<Vec3>, raw: nat -> nat, drawn: nat, sqrt: real -> real)
    requires |pts| == 1 && (forall x :: SqrtAt(sqrt, x))
    ensures RefineFrom(0, Sphere(pts[0], 0.0), Sphere(pts[0], 0.0), pts, raw, drawn, sqrt) == Sphere(pts[0], 0.0)
  {
    var s := Sphere(pts[0], 0.0);
    SinglePassesFixed(s, pts, raw, sqrt);
    RefineFromFixed(0, s, pts, raw, drawn, sqrt);
  }

  /** A pass over a single point leaves the sphere of radius 0 on that point as it is. */
  lemma SinglePass(s: Sphere, copy: seq<Vec3>, raw: nat -> nat, drawn: nat, sqrt: real -> real)
    requires (forall x :: SqrtAt(sqrt, x)) && |copy| == 1 && s == Sphere(copy[0], 0.0)
    ensures Pass(s, copy, raw, drawn, sqrt) == (s, copy)
  {
    assert Sphere(s.center, s.radius * Shrink) == s;
    ContainsCenter(s);
  }

  /** Every pass, whatever the generator has drawn before it, gives back `s` and `copy` unchanged. */
  ghost predicate FixedByPasses(s: Sphere, copy: seq<Vec3>, raw: nat -> nat, sqrt: real -> real)
    requires (forall x :: SqrtAt(sqrt, x)) && 0.0 <= s.radius && 1 <= |copy|
  {
    forall d: nat :: Pass(s, copy, raw, d, sqrt) == (s, copy)
  }

  /** Over a single point, the sphere of radius 0 on it is fixed by every pass. */
  lemma SinglePassesFixed(s: Sphere, pts: seq<Vec3>, raw: nat -> nat, sqrt: real -> real)
    requires (forall x :: SqrtAt(sqrt, x)) && |pts| == 1 && s == Sphere(pts[0], 0.0)
    ensures forall d: nat :: Pass(s, pts, raw, d, sqrt) == (s, pts)
  {
    forall d: nat
      ensures Pass(s, pts, raw, d, sqrt) == (s, pts)
    {
      SinglePass(s, pts, raw, d, sqrt);
    }
  }

  /** One pass from a fixed point only advances the draw count. */
  lemma RefineFromFixedStep(k: nat, s: Sphere, copy: seq<Vec3>, raw: nat -> nat, drawn: nat, sqrt: real -> real, next: nat)
    requires (forall x :: SqrtAt(sqrt, x)) && 0.0 <= s.radius && 1 <= |copy| && k < NumIter
    requires Pass(s, copy, raw, drawn, sqrt) == (s, copy) && next == drawn + |copy| - 1
    ensures RefineFrom(k, s, s, copy, raw, drawn, sqrt) == RefineFrom(k + 1, s, s, copy, raw, next, sqrt)
  {
    RefineFromStep(k, s, s, copy, raw, drawn, sqrt, s, copy);
  }

  /** Refinement that starts from a sphere every pass leaves fixed ends with that sphere. */
  lemma {:induction false} RefineFromFixed(k: nat, s: Sphere, copy: seq<Vec3>, raw: nat -> nat, drawn: nat, sqrt: real -> real)
    requires (forall x :: SqrtAt(sqrt, x)) && 0.0 <= s.radius && 1 <= |copy| && k <= NumIter
    requires FixedByPasses(s, copy, raw, sqrt)
    ensures RefineFrom(k, s, s, copy, raw, drawn, sqrt) == s
    decreases NumIter - k
  {
    if k < NumIter {
      var next := drawn + |copy| - 1;
      RefineFromFixed(k + 1, s, copy, raw, next, sqrt);
      RefineFromFixedStep(k, s, copy, raw, drawn, sqrt, next);
    }
  }

  /**
    * A mesh of one vertex gets the bounding sphere centred on that vertex
    * with radius 0: the seed is already that sphere, growing over the vertex
    * leaves it, and every pass gives it back unchanged.
    */
  lemma BoundingSphereOfSingle(pts: seq<Vec3>, raw: nat -> nat, drawn: nat, sqrt: real -> real)
    requires |pts| == 1 && (forall x :: SqrtAt(sqrt, x))
    ensures BoundingSphereOf(pts, raw, drawn, sqrt) == Sphere(pts[0], 0.0)
  {
    SingleGrown(pts, sqrt);
    SingleRefined(pts, raw, drawn, sqrt);
  }

  /** One swap-and-grow step of a pass, as the loop of the solver takes it. */
  lemma PassFromStep(s: Sphere, copy: seq<Vec3>, i: nat, raw: nat -> nat, drawn: nat, sqrt: real -> real, j: nat)
    requires (forall x :: SqrtAt(sqrt, x)) && 0.0 <= s.radius && i + 1 < |copy|
    requires j == UniformPick(raw, drawn, i + 1, |copy| - 1)
    ensures var swapped := copy[i := copy[j]][j := copy[i]];
      PassFrom(s, copy, i, raw, drawn, sqrt)
        == PassFrom(SphereOfSphereAndPt(s, swapped[i], sqrt), swapped, i + 1, raw, drawn + 1, sqrt)
  {
  }

  /** One pass of the refinement, as the loop of the solver takes it. */
  lemma RefineFromStep(k: nat, best: Sphere, work: Sphere, copy: seq<Vec3>, raw: nat -> nat, drawn: nat,
                       sqrt: real -> real, w: Sphere, c: seq<Vec3>)
    requires (forall x :: SqrtAt(sqrt, x)) && 0.0 <= work.radius && 1 <= |copy| && k < NumIter
    requires (w, c) == Pass(work, copy, raw, drawn, sqrt)
    ensures RefineFrom(k, best, work, copy, raw, drawn, sqrt)
         == RefineFrom(k + 1, if w.radius < best.radius then w else best, w, c, raw, drawn + |copy| - 1, sqrt)
  {
  }

  // ---------------------------------------------------------------------
  // The imperative solver
  // ---------------------------------------------------------------------

  /** Grows `sphere` over every point of `pts`, in input order. */
  method GrowAll(sphere: Sphere, pts: seq<Vec3>, sqrt: real -> real) returns (r: Sphere)
    requires (forall x :: SqrtAt(sqrt, x)) && 0.0 <= sphere.radius
    ensures r == GrowOver(sphere, pts, sqrt)
  {
    r := sphere;
    for i := 0 to |pts|
      invariant 0.0 <= r.radius
      invariant GrowOver(r, pts[i..], sqrt) == GrowOver(sphere, pts, sqrt)
    {
      assert pts[i..][1..] == pts[i + 1..];
      r := SphereOfSphereAndPt(r, pts[i], sqrt);
    }
    assert pts[|pts|..] == [];
  }

  /** `std::swap(copy[i], copy[j])`. */
  method Swap(copy: array<Vec3>, i: nat, j: nat)
    requires i < copy.Length && j < copy.Length
    modifies copy
    ensures copy[..] == old(copy[..])[i := old(copy[..])[j]][j := old(copy[..])[i]]
  {
    copy[i], copy[j] := copy[j], copy[i];
  }

  /**
    * One step of a refinement pass: swap `copy[i]` with a drawn `copy[j]`,
    * `i < j < copy.Length`, and grow the sphere over the new `copy[i]`.
    */
  method SwapAndGrow(copy: array<Vec3>, i: nat, sphere: Sphere, gen: Generator, sqrt: real -> real)
    returns (r: Sphere)
    requires i + 1 < copy.Length && (forall x :: SqrtAt(sqrt, x)) && 0.0 <= sphere.radius
    modifies copy, gen
    ensures gen.drawn == old(gen.drawn) + 1 && 0.0 <= r.radius
    ensures var before, j := old(copy[..]), UniformPick(gen.raw, old(gen.drawn), i + 1, copy.Length - 1);
      copy[..] == before[i := before[j]][j := before[i]]
    ensures r == SphereOfSphereAndPt(sphere, copy[i], sqrt)
    ensures PassFrom(r, copy[..], i + 1, gen.raw, gen.drawn, sqrt)
         == PassFrom(sphere, old(copy[..]), i, gen.raw, old(gen.drawn), sqrt)
  {
    ghost var before := copy[..];
    var j := gen.Uniform(i + 1, copy.Length - 1);
    assert copy[..] == before;
    Swap(copy, i, j);
    r := SphereOfSphereAndPt(sphere, copy[i], sqrt);
    PassFromStep(sphere, before, i, gen.raw, old(gen.drawn), sqrt, j);
  }

  /**
    * One refinement pass on the shared array `copy`: each `copy[i]` but the
    * last is swapped with a drawn later element and the sphere grown over
    * it; then the sphere is grown over the last point. Makes
    * `copy.Length - 1` draws.
    */
  method RefinePass(copy: array<Vec3>, sphere: Sphere, gen: Generator, sqrt: real -> real) returns (r: Sphere)
    requires 1 <= copy.Length && (forall x :: SqrtAt(sqrt, x)) && 0.0 <= sphere.radius
    modifies copy, gen
    ensures gen.drawn == old(gen.drawn) + copy.Length - 1
    ensures (r, copy[..]) == PassFrom(sphere, old(copy[..]), 0, gen.raw, old(gen.drawn), sqrt)
  {
    var n := copy.Length;
    r := sphere;
    for i := 0 to n - 1
      invariant 0.0 <= r.radius
      invariant gen.drawn == old(gen.drawn) + i
      invariant PassFrom(r, copy[..], i, gen.raw, gen.drawn, sqrt)
             == PassFrom(sphere, old(copy[..]), 0, gen.raw, old(gen.drawn), sqrt)
    {
      r := SwapAndGrow(copy, i, r, gen, sqrt);
    }
    // The last point, without a swap.
    r := SphereOfSphereAndPt(r, copy[n - 1], sqrt);
  }

  /**
    * Pass `k` of the refinement: shrink the working sphere by 5%, run a pass
    * on `copy`, and keep the result as the best sphere only when its radius
    * is strictly smaller.
    */
  method RefineStep(k: nat, copy: array<Vec3>, best: Sphere, work: Sphere, gen: Generator, sqrt: real -> real)
    returns (best': Sphere, work': Sphere)
    requires k < NumIter && 1 <= copy.Length && (forall x :: SqrtAt(sqrt, x)) && 0.0 <= work.radius
    modifies copy, gen
    ensures gen.drawn == old(gen.drawn) + copy.Length - 1 && 0.0 <= work'.radius
    ensures (work', copy[..]) == Pass(work, old(copy[..]), gen.raw, old(gen.drawn), sqrt)
    ensures best' == if work'.radius < best.radius then work' else best
    ensures RefineFrom(k + 1, best', work', copy[..], gen.raw, gen.drawn, sqrt)
         == RefineFrom(k, best, work, old(copy[..]), gen.raw, old(gen.drawn), sqrt)
  {
    work' := Sphere(work.center, work.radius * Shrink);
    work' := RefinePass(copy, work', gen, sqrt);
    RefineFromStep(k, best, work, old(copy[..]), gen.raw, old(gen.drawn), sqrt, work', copy[..]);
    best' := best;
    if work'.radius < best.radius {
      best' := work';
    }
  }

  /**
    * The sixteen refinement passes on the array `copy`, which is shuffled in
    * place and kept from pass to pass. The working sphere is not reset to
    * the best one between passes.
    */
  method Refine(copy: array<Vec3>, sphere: Sphere, gen: Generator, sqrt: real -> real) returns (best: Sphere)
    requires 1 <= copy.Length && (forall x :: SqrtAt(sqrt, x)) && 0.0 <= sphere.radius
    modifies copy, gen
    ensures gen.drawn == old(gen.drawn) + NumIter * (copy.Length - 1)
    ensures best == RefineFrom(0, sphere, sphere, old(copy[..]), gen.raw, old(gen.drawn), sqrt)
  {
    var n := copy.Length;
    best := sphere;
    var sphere2 := sphere;
    for k := 0 to NumIter
      invariant 0.0 <= sphere2.radius
      invariant gen.drawn == old(gen.drawn) + k * (n - 1)
      invariant RefineFrom(k, best, sphere2, copy[..], gen.raw, gen.drawn, sqrt)
             == RefineFrom(0, sphere, sphere, old(copy[..]), gen.raw, old(gen.drawn), sqrt)
    {
      best, sphere2 := RefineStep(k, copy, best, sphere2, gen, sqrt);
      assert (k + 1) * (n - 1) == k * (n - 1) + (n - 1);
    }
  }

  /**
    * Ritter's sphere: the seed on the chosen extremal pair, grown over the
    * points in input order.
    */
  method RitterSphere(pts: seq<Vec3>, sqrt: real -> real) returns (sphere: Sphere)
    requires 1 <= |pts| && (forall x :: SqrtAt(sqrt, x))
    ensures sphere == GrowOver(RitterSeed(pts, sqrt), pts, sqrt) && 0.0 <= sphere.radius
  {
    var e := ExtremalPoints(pts);
    sphere := SeedSphere(pts, e, sqrt);
    sphere := GrowAll(sphere, pts, sqrt);
  }

  /** A fresh array holding the points, for the passes to shuffle. */
  method CopyOf(pts: seq<Vec3>) returns (copy: array<Vec3>)
    ensures fresh(copy) && copy[..] == pts
  {
    copy := new Vec3[|pts|](k requires 0 <= k < |pts| => pts[k]);
  }

  /**
    * `FindCenterOfBoundingSphere`: Ritter's sphere, then the refinement
    * passes on an array copy of the points. Returns the centre of the best
    * sphere. The source reads index 0 and index `numVertices - 1`
    * unconditionally, so at least one point is needed.
    */
  method FindCenterOfBoundingSphere(pts: seq<Vec3>, gen: Generator, sqrt: real -> real) returns (center: Vec3)
    requires 1 <= |pts| && (forall x :: SqrtAt(sqrt, x))
    modifies gen
    ensures gen.drawn == old(gen.drawn) + NumIter * (|pts| - 1)
    ensures center == BoundingSphereOf(pts, gen.raw, old(gen.drawn), sqrt).center
  {
    var sphere := RitterSphere(pts, sqrt);
    var copy := CopyOf(pts);
    var best := Refine(copy, sphere, gen, sqrt);
    center := best.center;
  }
}
