/** The scene objects read by raycast.c and the nearest-hit scan `intersect`
    (raycast.c:145-180). */
module Scene {
  import opened Wrappers
  import opened Vectors
  import opened Intersections

  /** A colour as the three integers `(int)(color*255)` computes. */
  datatype Rgb = Rgb(r: int, g: int, b: int)

  const Black := Rgb(0, 0, 0)

  /** An object of the scene, by its type tag: 0 camera, 1 sphere, 2 plane. */
  datatype Object =
    | Camera(width: real, height: real)
    | Sphere(color: Rgb, position: Vec3, radius: real)
    | Plane(color: Rgb, position: Vec3, normal: Vec3)

  /** The ray is not parallel to a plane object (the plane test divides by
      normal . rd). */
  predicate RayFits(o: Object, rd: Vec3)
  {
    o.Plane? ==> PlaneDenominator(rd, o.normal) != 0.0
  }

  /** What `intersect` needs of its arguments: the first n slots hold objects
      and each of them can be checked against the ray. */
  ghost predicate Admissible(objects: seq<Option<Object>>, n: int, rd: Vec3, sqrt: real -> real)
  {
    && n <= |objects|
    && IsSqrt(sqrt)
    && SquaredLength(rd) > 0.0
    && forall i :: 0 <= i < n ==> objects[i].Some? && RayFits(objects[i].value, rd)
  }

  /** The distance test raycast.c dispatches to for a sphere (type 1) or a
      plane (type 2), for a ray from the origin. */
  function Distance(o: Object, rd: Vec3, sqrt: real -> real): (t: real)
    requires !o.Camera? && IsSqrt(sqrt) && SquaredLength(rd) > 0.0 && RayFits(o, rd)
    ensures t == NoHit || t > 0.0
  {
    if o.Sphere? then
      var d := SphereDiscriminant(Origin, rd, o.position, o.radius);
      assert SqrtWitness(sqrt(d), d);
      SphereIntersection(Origin, rd, o.position, o.radius, sqrt(d))
    else
      PlaneIntersection(Origin, rd, o.position, o.normal)
  }

  /** The object is a sphere or a plane that the ray meets ahead of the origin. */
  ghost predicate Hits(o: Object, rd: Vec3, sqrt: real -> real)
    requires IsSqrt(sqrt) && SquaredLength(rd) > 0.0 && RayFits(o, rd)
  {
    !o.Camera? && Distance(o, rd, sqrt) > 0.0
  }

  /** The index `intersect` settles on after looking at the first n objects:
      a later object replaces the current one when it is hit no farther away. */
  ghost function Nearest(objects: seq<Option<Object>>, n: int, rd: Vec3, sqrt: real -> real): (r: int)
    requires Admissible(objects, n, rd, sqrt)
    ensures r == -1 || (0 <= r < n && Hits(objects[r].value, rd, sqrt))
    decreases n
  {
    if n <= 0 then -1
    else
      var r := Nearest(objects, n - 1, rd, sqrt);
      var o := objects[n - 1].value;
      if Hits(o, rd, sqrt) && (r == -1 || Distance(o, rd, sqrt) <= Distance(objects[r].value, rd, sqrt))
      then n - 1
      else r
  }

  /** `intersect` returns -1 exactly when no sphere or plane among the first n
      objects lies ahead on the ray; otherwise an object at the least distance,
      the last such one when several tie. */
  lemma {:induction false} NearestIsLastClosest(objects: seq<Option<Object>>, n: int, rd: Vec3, sqrt: real -> real)
    requires Admissible(objects, n, rd, sqrt)
    ensures var r := Nearest(objects, n, rd, sqrt);
      && (r == -1 <==> forall i :: 0 <= i < n ==> !Hits(objects[i].value, rd, sqrt))
      && (r != -1 ==>
            && 0 <= r < n
            && Hits(objects[r].value, rd, sqrt)
            && (forall i :: 0 <= i < n && Hits(objects[i].value, rd, sqrt) ==>
                  Distance(objects[r].value, rd, sqrt) <= Distance(objects[i].value, rd, sqrt))
            && (forall i :: r < i < n && Hits(objects[i].value, rd, sqrt) ==>
                  Distance(objects[r].value, rd, sqrt) < Distance(objects[i].value, rd, sqrt)))
    decreases n
  {
    if n > 0 {
      NearestIsLastClosest(objects, n - 1, rd, sqrt);
    }
  }

  /** `intersect` (raycast.c:145-180). closest_t starts as INFINITY; here the
      "nothing found yet" state closestObjectNum == -1 plays that part. */
  method Intersect(rd: Vec3, objectNum: int, objects: seq<Option<Object>>, sqrt: real -> real)
    returns (closestObjectNum: int)
    requires Admissible(objects, objectNum, rd, sqrt)
    ensures closestObjectNum == Nearest(objects, objectNum, rd, sqrt)
    ensures closestObjectNum == -1 <==> forall i :: 0 <= i < objectNum ==> !Hits(objects[i].value, rd, sqrt)
    ensures closestObjectNum != -1 ==>
      && 0 <= closestObjectNum < objectNum
      && Hits(objects[closestObjectNum].value, rd, sqrt)
      && (forall i :: 0 <= i < objectNum && Hits(objects[i].value, rd, sqrt) ==>
            Distance(objects[closestObjectNum].value, rd, sqrt) <= Distance(objects[i].value, rd, sqrt))
      && (forall i :: closestObjectNum < i < objectNum && Hits(objects[i].value, rd, sqrt) ==>
            Distance(objects[closestObjectNum].value, rd, sqrt) < Distance(objects[i].value, rd, sqrt))
  {
    closestObjectNum := -1;
    var closestT := 0.0;
    var i := 0;
    while i < objectNum
      invariant 0 <= i && (i <= objectNum || i == 0)
      invariant closestObjectNum == Nearest(objects, i, rd, sqrt)
      invariant closestObjectNum != -1 ==> closestT == Distance(objects[closestObjectNum].value, rd, sqrt)
    {
      var o := objects[i].value;
      if o.Sphere? {
        var d := SphereDiscriminant(Origin, rd, o.position, o.radius);
        assert SqrtWitness(sqrt(d), d);
        var t := SphereIntersection(Origin, rd, o.position, o.radius, sqrt(d));
        if t != 0.0 {
          if t > 0.0 && (closestObjectNum == -1 || t <= closestT) {
            closestT := t;
            closestObjectNum := i;
          }
        } else {
          // "cannot find distance": neither test ever returns 0
          assert false;
          return 1;
        }
      } else if o.Plane? {
        var t := PlaneIntersection(Origin, rd, o.position, o.normal);
        if t != 0.0 {
          if t > 0.0 && (closestObjectNum == -1 || t <= closestT) {
            closestT := t;
            closestObjectNum := i;
          }
        } else {
          assert false;
          return 1;
        }
      }
      i := i + 1;
    }
    NearestIsLastClosest(objects, objectNum, rd, sqrt);
    return closestObjectNum;
  }
}
