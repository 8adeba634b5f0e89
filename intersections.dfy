/** The two closed-form ray/object distance tests of raycast.c, over the
    reals, with -1 as the "no intersection" sentinel. */
module Intersections {
  import opened Vectors

  const NoHit := -1.0

  // ---- sphere_intersection (raycast.c:71-91) ----

  /** The coefficients of a*t^2 + b*t + c = |ro + t*rd - center|^2 - radius^2,
      written as raycast.c:72-76 writes them. */
  function SphereA(rd: Vec3): real
  {
    Sqr(rd.x) + Sqr(rd.y) + Sqr(rd.z)
  }

  function SphereB(ro: Vec3, rd: Vec3, center: Vec3): real
  {
    2.0 * (ro.x * rd.x + ro.y * rd.y + ro.z * rd.z
           - rd.x * center.x - rd.y * center.y - rd.z * center.z)
  }

  function SphereC(ro: Vec3, center: Vec3, radius: real): real
  {
    Sqr(ro.x) + Sqr(ro.y) + Sqr(ro.z) + Sqr(center.x) + Sqr(center.y) + Sqr(center.z)
    - 2.0 * (ro.x * center.x + ro.y * center.y + ro.z * center.z) - Sqr(radius)
  }

  function SphereDiscriminant(ro: Vec3, rd: Vec3, center: Vec3, radius: real): real
  {
    Sqr(SphereB(ro, rd, center)) - 4.0 * SphereA(rd) * SphereC(ro, center, radius)
  }

  /** The two roots t1 and t2, given the square root `s` of the discriminant. */
  function NearRoot(ro: Vec3, rd: Vec3, center: Vec3, s: real): real
    requires SquaredLength(rd) > 0.0
  {
    (-SphereB(ro, rd, center) - s) / (2.0 * SphereA(rd))
  }

  function FarRoot(ro: Vec3, rd: Vec3, center: Vec3, s: real): real
    requires SquaredLength(rd) > 0.0
  {
    (-SphereB(ro, rd, center) + s) / (2.0 * SphereA(rd))
  }

  /** `sphere_intersection`: the distance to the sphere along the ray, or -1.
      `s` stands for sqrt(d), computed only when d is not negative. */
  function SphereIntersection(ro: Vec3, rd: Vec3, center: Vec3, radius: real, s: real): (t: real)
    requires SquaredLength(rd) > 0.0
    requires SqrtWitness(s, SphereDiscriminant(ro, rd, center, radius))
    ensures t == NoHit || t > 0.0
    ensures SphereDiscriminant(ro, rd, center, radius) < 0.0 ==> t == NoHit
  {
    if SphereDiscriminant(ro, rd, center, radius) < 0.0 then NoHit
    else if NearRoot(ro, rd, center, s) > 0.0 then NearRoot(ro, rd, center, s)
    else if FarRoot(ro, rd, center, s) > 0.0 then FarRoot(ro, rd, center, s)
    else NoHit
  }

  /** The point at distance t along the ray lies on the sphere's surface. */
  predicate OnSphere(ro: Vec3, rd: Vec3, center: Vec3, radius: real, t: real)
  {
    SquaredLength(Sub(At(ro, rd, t), center)) == Sqr(radius)
  }

  // ---- planeIntersection (raycast.c:93-102) ----

  function PlaneNumerator(ro: Vec3, position: Vec3, normal: Vec3): real
  {
    normal.x * ro.x + normal.y * ro.y + normal.z * ro.z
    - normal.x * position.x - normal.y * position.y - normal.z * position.z
  }

  function PlaneDenominator(rd: Vec3, normal: Vec3): real
  {
    normal.x * rd.x + normal.y * rd.y + normal.z * rd.z
  }

  /** The signed distance t of raycast.c:94-96, before the sign test. */
  function PlaneDistance(ro: Vec3, rd: Vec3, position: Vec3, normal: Vec3): real
    requires PlaneDenominator(rd, normal) != 0.0
  {
    -PlaneNumerator(ro, position, normal) / PlaneDenominator(rd, normal)
  }

  /** `planeIntersection`: the distance to the plane along the ray, or -1. */
  function PlaneIntersection(ro: Vec3, rd: Vec3, position: Vec3, normal: Vec3): (t: real)
    requires PlaneDenominator(rd, normal) != 0.0
    ensures t == NoHit || t > 0.0
  {
    var t := PlaneDistance(ro, rd, position, normal);
    if t > 0.0 then t else NoHit
  }

  /** The point at distance t along the ray lies in the plane. */
  predicate OnPlane(ro: Vec3, rd: Vec3, position: Vec3, normal: Vec3, t: real)
  {
    Dot(normal, Sub(At(ro, rd, t), position)) == 0.0
  }

  // ---- what the two tests promise ----

  /** One coordinate of the expansion of |ro + t*rd - center|^2. */
  lemma SquareExpansion(o: real, d: real, c: real, t: real)
    ensures Sqr(o + d * t - c)
         == Sqr(d) * t * t + 2.0 * (o * d - d * c) * t + Sqr(o) + Sqr(c) - 2.0 * (o * c)
  {
  }

  /** The squared distance from the sphere's centre, minus radius^2, is the
      quadratic whose coefficients raycast.c:72-76 computes. */
  lemma SphereQuadratic(ro: Vec3, rd: Vec3, center: Vec3, radius: real, t: real)
    ensures SquaredLength(Sub(At(ro, rd, t), center)) - Sqr(radius)
         == SphereA(rd) * t * t + SphereB(ro, rd, center) * t + SphereC(ro, center, radius)
  {
    SquareExpansion(ro.x, rd.x, center.x, t);
    SquareExpansion(ro.y, rd.y, center.y, t);
    SquareExpansion(ro.z, rd.z, center.z, t);
  }

  /** With a square root s of the discriminant, the quadratic factors over its
      two roots. */
  lemma QuadraticFactors(a: real, b: real, c: real, s: real, t1: real, t2: real, t: real)
    requires a > 0.0
    requires s * s == b * b - 4.0 * a * c
    requires 2.0 * a * t1 == -b - s && 2.0 * a * t2 == -b + s
    ensures a * t * t + b * t + c == a * (t - t1) * (t - t2)
  {
    calc {
      4.0 * a * (a * (t - t1) * (t - t2));
      (2.0 * a * t - 2.0 * a * t1) * (2.0 * a * t - 2.0 * a * t2);
      (2.0 * a * t + b + s) * (2.0 * a * t + b - s);
      (2.0 * a * t + b) * (2.0 * a * t + b) - s * s;
      4.0 * a * (a * t * t + b * t + c);
    }
  }

  lemma RootsOfProduct(a: real, q: real, t: real, t1: real, t2: real)
    requires a > 0.0 && q == a * (t - t1) * (t - t2)
    ensures q == 0.0 <==> t == t1 || t == t2
  {
  }

  lemma ScaledNonNegative(p: real, x: real)
    requires p > 0.0 && p * x >= 0.0
    ensures x >= 0.0
  {
  }

  lemma ScaledPositive(p: real, x: real)
    requires p > 0.0 && p * x > 0.0
    ensures x > 0.0
  {
  }

  /** ... so its zeros are exactly the two roots. */
  lemma QuadraticRoots(a: real, b: real, c: real, s: real, t1: real, t2: real, t: real)
    requires a > 0.0
    requires s * s == b * b - 4.0 * a * c
    requires 2.0 * a * t1 == -b - s && 2.0 * a * t2 == -b + s
    ensures a * t * t + b * t + c == 0.0 <==> t == t1 || t == t2
  {
    QuadraticFactors(a, b, c, s, t1, t2, t);
    RootsOfProduct(a, a * t * t + b * t + c, t, t1, t2);
  }

  /** With a negative discriminant the quadratic has no real root. */
  lemma QuadraticPositive(a: real, b: real, c: real, t: real)
    requires a > 0.0
    requires b * b - 4.0 * a * c < 0.0
    ensures a * t * t + b * t + c > 0.0
  {
    var q, e := a * t * t + b * t + c, 2.0 * a * t + b;
    assert 4.0 * a * q == e * e - (b * b - 4.0 * a * c);
    assert Sqr(e) >= 0.0;
    ScaledPositive(4.0 * a, q);
  }

  /** With a negative discriminant no point of the ray lies on the sphere. */
  lemma OffSphere(ro: Vec3, rd: Vec3, center: Vec3, radius: real, t: real)
    requires SquaredLength(rd) > 0.0
    requires SphereDiscriminant(ro, rd, center, radius) < 0.0
    ensures !OnSphere(ro, rd, center, radius, t)
  {
    var a, b, c := SphereA(rd), SphereB(ro, rd, center), SphereC(ro, center, radius);
    SphereQuadratic(ro, rd, center, radius, t);
    assert a == SquaredLength(rd);
    assert b * b - 4.0 * a * c < 0.0 by {
      assert SphereDiscriminant(ro, rd, center, radius) == Sqr(b) - 4.0 * a * c;
    }
    QuadraticPositive(a, b, c, t);
  }

  /** With a non-negative discriminant the points of the ray on the sphere are
      those at the two roots. */
  lemma OnSphereAtRoots(ro: Vec3, rd: Vec3, center: Vec3, radius: real, s: real, t: real)
    requires SquaredLength(rd) > 0.0
    requires SqrtWitness(s, SphereDiscriminant(ro, rd, center, radius))
    requires SphereDiscriminant(ro, rd, center, radius) >= 0.0
    ensures OnSphere(ro, rd, center, radius, t)
            <==> t == NearRoot(ro, rd, center, s) || t == FarRoot(ro, rd, center, s)
  {
    var a, b, c := SphereA(rd), SphereB(ro, rd, center), SphereC(ro, center, radius);
    SphereQuadratic(ro, rd, center, radius, t);
    assert a == SquaredLength(rd);
    QuadraticRootsAt(a, b, c, s, t);
  }

  /** QuadraticRoots with the roots written as the quadratic formula. */
  lemma QuadraticRootsAt(a: real, b: real, c: real, s: real, t: real)
    requires a > 0.0
    requires SqrtWitness(s, Sqr(b) - 4.0 * a * c) && Sqr(b) - 4.0 * a * c >= 0.0
    ensures a * t * t + b * t + c == 0.0 <==> t == (-b - s) / (2.0 * a) || t == (-b + s) / (2.0 * a)
  {
    DivMul(-b - s, 2.0 * a);
    DivMul(-b + s, 2.0 * a);
    QuadraticRoots(a, b, c, s, (-b - s) / (2.0 * a), (-b + s) / (2.0 * a), t);
  }

  lemma DivMul(n: real, d: real)
    requires d != 0.0
    ensures d * (n / d) == n
  {
  }

  /** A point of the ray lies on the sphere exactly when its distance is one of
      the two roots (and no point does when the discriminant is negative). */
  lemma OnSphereIffRoot(ro: Vec3, rd: Vec3, center: Vec3, radius: real, s: real, t: real)
    requires SquaredLength(rd) > 0.0
    requires SqrtWitness(s, SphereDiscriminant(ro, rd, center, radius))
    ensures SphereDiscriminant(ro, rd, center, radius) < 0.0 ==> !OnSphere(ro, rd, center, radius, t)
    ensures SphereDiscriminant(ro, rd, center, radius) >= 0.0 ==>
              (OnSphere(ro, rd, center, radius, t)
               <==> t == NearRoot(ro, rd, center, s) || t == FarRoot(ro, rd, center, s))
  {
    if SphereDiscriminant(ro, rd, center, radius) < 0.0 {
      OffSphere(ro, rd, center, radius, t);
    } else {
      OnSphereAtRoots(ro, rd, center, radius, s, t);
    }
  }

  /** How raycast.c:81-90 chooses between the roots: t1 <= t2, the nearer root
      t1 when it lies ahead, else t2 when it lies ahead, else no hit. */
  lemma SphereRootChoice(ro: Vec3, rd: Vec3, center: Vec3, radius: real, s: real)
    requires SquaredLength(rd) > 0.0
    requires SqrtWitness(s, SphereDiscriminant(ro, rd, center, radius))
    requires SphereDiscriminant(ro, rd, center, radius) >= 0.0
    ensures NearRoot(ro, rd, center, s) <= FarRoot(ro, rd, center, s)
    ensures NearRoot(ro, rd, center, s) > 0.0 ==>
              SphereIntersection(ro, rd, center, radius, s) == NearRoot(ro, rd, center, s)
    ensures NearRoot(ro, rd, center, s) <= 0.0 < FarRoot(ro, rd, center, s) ==>
              SphereIntersection(ro, rd, center, radius, s) == FarRoot(ro, rd, center, s)
    ensures FarRoot(ro, rd, center, s) <= 0.0 ==>
              SphereIntersection(ro, rd, center, radius, s) == NoHit
  {
    var a, b := SphereA(rd), SphereB(ro, rd, center);
    assert 2.0 * a * NearRoot(ro, rd, center, s) == -b - s;
    assert 2.0 * a * FarRoot(ro, rd, center, s) == -b + s;
    ScaledNonNegative(2.0 * a, FarRoot(ro, rd, center, s) - NearRoot(ro, rd, center, s));
  }

  /** The sphere test returns the nearest point of the surface ahead of the ray
      origin: a positive result lies on the sphere and no surface point ahead is
      nearer; -1 means no surface point lies ahead. */
  lemma SphereIntersectionIsNearestHit(ro: Vec3, rd: Vec3, center: Vec3, radius: real, s: real)
    requires SquaredLength(rd) > 0.0
    requires SqrtWitness(s, SphereDiscriminant(ro, rd, center, radius))
    ensures var t := SphereIntersection(ro, rd, center, radius, s);
            (t > 0.0 ==> OnSphere(ro, rd, center, radius, t)) &&
            (forall u :: u > 0.0 && OnSphere(ro, rd, center, radius, u) ==> t > 0.0 && t <= u)
  {
    var t := SphereIntersection(ro, rd, center, radius, s);
    if SphereDiscriminant(ro, rd, center, radius) >= 0.0 {
      SphereRootChoice(ro, rd, center, radius, s);
      OnSphereIffRoot(ro, rd, center, radius, s, t);
    }
    forall u | u > 0.0 && OnSphere(ro, rd, center, radius, u)
      ensures t > 0.0 && t <= u
    {
      OnSphereIffRoot(ro, rd, center, radius, s, u);
    }
  }

  /** The plane equation along the ray is linear in t. */
  lemma PlaneLinear(ro: Vec3, rd: Vec3, position: Vec3, normal: Vec3, t: real)
    ensures Dot(normal, Sub(At(ro, rd, t), position))
         == PlaneNumerator(ro, position, normal) + t * PlaneDenominator(rd, normal)
  {
  }

  /** The one root of num + t*den when den is not zero. */
  lemma LinearRoot(num: real, den: real, t: real)
    requires den != 0.0
    ensures num + t * den == 0.0 <==> t == -num / den
  {
    if t == -num / den {
      assert t * den == -num;
    }
  }

  /** The plane test returns the one point of the ray that lies in the plane
      when that point is ahead of the origin (t > 0), and -1 otherwise. */
  lemma PlaneIntersectionIsForwardHit(ro: Vec3, rd: Vec3, position: Vec3, normal: Vec3)
    requires PlaneDenominator(rd, normal) != 0.0
    ensures var t := PlaneIntersection(ro, rd, position, normal);
            var d := PlaneDistance(ro, rd, position, normal);
            (d > 0.0 ==> t == d) && (d <= 0.0 ==> t == NoHit) &&
            (t > 0.0 ==> OnPlane(ro, rd, position, normal, t)) &&
            (forall u :: OnPlane(ro, rd, position, normal, u) ==> u == d) &&
            (forall u :: u > 0.0 && OnPlane(ro, rd, position, normal, u) ==> t == u)
  {
    var d := PlaneDistance(ro, rd, position, normal);
    var num, den := PlaneNumerator(ro, position, normal), PlaneDenominator(rd, normal);
    forall u
      ensures OnPlane(ro, rd, position, normal, u) <==> u == d
    {
      PlaneLinear(ro, rd, position, normal, u);
      LinearRoot(num, den, u);
    }
  }
}
