/**
 * Hits and spheres: the ray-sphere intersection of `Sphere.intersect` in
 * main.py. An object is identified by its index in the scene's object list,
 * which is what Python's identity comparison of `Sphere` objects amounts to.
 */
module Spheres {
  import opened Options
  import opened Vectors
  import opened Rays

  /** `Hit`: which object was hit, where, its outward normal there, and how far along the ray. */
  datatype Hit = Hit(objectId: nat, position: Vec3, normal: Vec3, distance: real)

  /** `Sphere`: a centre, a radius and a colour (RGB components). */
  datatype Sphere = Sphere(center: Vec3, radius: real, color: Vec3)

  /*
   * The ray `origin + t * direction` meets the sphere where
   * `|origin + t * direction - center|^2 == radius^2`, that is where
   * `A * t^2 + B * t + C == 0` with the three coefficients below.
   */

  function QuadraticA(ray: Ray): real {
    Dot(ray.direction, ray.direction)
  }

  function QuadraticB(sphere: Sphere, ray: Ray): real {
    2.0 * Dot(ray.direction, Sub(ray.origin, sphere.center))
  }

  function QuadraticC(sphere: Sphere, ray: Ray): real {
    var oc := Sub(ray.origin, sphere.center);
    Dot(oc, oc) - sphere.radius * sphere.radius
  }

  function Discriminant(sphere: Sphere, ray: Ray): real {
    var b := QuadraticB(sphere, ray);
    b * b - 4.0 * QuadraticA(ray) * QuadraticC(sphere, ray)
  }

  /** `t` solves the intersection quadratic `A * t^2 + B * t + C == 0`. */
  predicate IsRoot(sphere: Sphere, ray: Ray, t: real) {
    QuadraticA(ray) * t * t + QuadraticB(sphere, ray) * t + QuadraticC(sphere, ray) == 0.0
  }

  /**
   * A ray with a direction: it was normalised to a unit vector, so the
   * quadratic is monic (`A == 1`).
   */
  predicate Directed(ray: Ray) {
    Normalized(ray) && !IsZero(ray.direction)
  }

  /** The `bhaskara` lambda: the root of `a*t^2 + b*t + c` belonging to the square root `d`. */
  function Bhaskara(a: real, b: real, d: real): (t: real)
    requires a != 0.0
    ensures 2.0 * a * t == d - b
  {
    (-b + d) / (2.0 * a)
  }

  /** The larger root, `(-B + sqrt(delta)) / 2A`. */
  function PlusRoot(sphere: Sphere, ray: Ray, sqrt: real -> real): real
    requires IsSqrt(sqrt) && Directed(ray) && Discriminant(sphere, ray) > 0.0
  {
    Bhaskara(QuadraticA(ray), QuadraticB(sphere, ray), sqrt(Discriminant(sphere, ray)))
  }

  /** The smaller root, `(-B - sqrt(delta)) / 2A`. */
  function MinusRoot(sphere: Sphere, ray: Ray, sqrt: real -> real): real
    requires IsSqrt(sqrt) && Directed(ray) && Discriminant(sphere, ray) > 0.0
  {
    Bhaskara(QuadraticA(ray), QuadraticB(sphere, ray), -sqrt(Discriminant(sphere, ray)))
  }

  /** The list comprehension keeping the strictly positive solutions, in order. */
  function PositiveOnly(xs: seq<real>): (r: seq<real>)
    ensures |r| <= |xs|
    ensures forall x :: x in r <==> x in xs && x > 0.0
  {
    if xs == [] then []
    else if xs[0] > 0.0 then [xs[0]] + PositiveOnly(xs[1..])
    else PositiveOnly(xs[1..])
  }

  /** Python's `min` of a non-empty list: an element no larger than any other. */
  function MinOf(xs: seq<real>): (r: real)
    requires |xs| > 0
    ensures r in xs
    ensures forall x :: x in xs ==> r <= x
  {
    if |xs| == 1 then xs[0]
    else
      var m := MinOf(xs[1..]);
      assert forall x :: x in xs ==> x == xs[0] || x in xs[1..];
      if xs[0] <= m then xs[0] else m
  }

  /**
   * `sphere.intersect(ray)` for the sphere stored at index `id`. There is no
   * hit unless the ray has a direction, the discriminant is strictly positive
   * and one of the two roots is strictly positive; the hit is then at the
   * smaller positive root, on the ray, and carries the normalised vector from
   * the centre to the hit point.
   *
   * A ray without direction stands for glm's vector of NaNs: its
   * discriminant is NaN, which fails `delta > 0` just as a non-positive
   * discriminant does, so Python returns `None`; the first branch says so.
   */
  function Intersect(sphere: Sphere, id: nat, ray: Ray, sqrt: real -> real): (r: Option<Hit>)
    requires IsSqrt(sqrt) && Normalized(ray)
    ensures IsZero(ray.direction) ==> r == None
    ensures Discriminant(sphere, ray) <= 0.0 ==> r == None
    ensures r.Some? <==>
      Directed(ray) && Discriminant(sphere, ray) > 0.0 &&
      (PlusRoot(sphere, ray, sqrt) > 0.0 || MinusRoot(sphere, ray, sqrt) > 0.0)
    ensures r.Some? ==>
      && r.value.objectId == id
      && r.value.distance > 0.0
      && (r.value.distance == PlusRoot(sphere, ray, sqrt) || r.value.distance == MinusRoot(sphere, ray, sqrt))
      && (PlusRoot(sphere, ray, sqrt) > 0.0 ==> r.value.distance <= PlusRoot(sphere, ray, sqrt))
      && (MinusRoot(sphere, ray, sqrt) > 0.0 ==> r.value.distance <= MinusRoot(sphere, ray, sqrt))
      && r.value.position == At(ray, r.value.distance)
      && r.value.normal == Normalize(Sub(r.value.position, sphere.center), sqrt)
  {
    if IsZero(ray.direction) then None
    else
      var delta := Discriminant(sphere, ray);
      if delta > 0.0 then
        var solutions := [PlusRoot(sphere, ray, sqrt), MinusRoot(sphere, ray, sqrt)];
        var positive := PositiveOnly(solutions);
        if |positive| > 0 then
          assert solutions[0] in solutions && solutions[1] in solutions;
          var distance := MinOf(positive);
          var hitPoint := At(ray, distance);
          Some(Hit(id, hitPoint, Normalize(Sub(hitPoint, sphere.center), sqrt), distance))
        else
          assert !(solutions[0] > 0.0) && !(solutions[1] > 0.0);
          None
      else
        None
  }

  /** Of the two roots, the one taken with `-sqrt(delta)` is never the larger. */
  lemma RootsOrdered(sphere: Sphere, ray: Ray, sqrt: real -> real)
    requires IsSqrt(sqrt) && Directed(ray) && Discriminant(sphere, ray) > 0.0
    ensures MinusRoot(sphere, ray, sqrt) <= PlusRoot(sphere, ray, sqrt)
  {
    assert 0.0 <= sqrt(Discriminant(sphere, ray));
  }

  /**
   * The hit distance is the nearer of the roots in front of the ray origin:
   * the smaller root when it is positive, the larger one otherwise.
   */
  lemma IntersectNearerRoot(sphere: Sphere, id: nat, ray: Ray, sqrt: real -> real)
    requires IsSqrt(sqrt) && Normalized(ray) && Intersect(sphere, id, ray, sqrt).Some?
    ensures Intersect(sphere, id, ray, sqrt).value.distance ==
      if MinusRoot(sphere, ray, sqrt) > 0.0 then MinusRoot(sphere, ray, sqrt)
      else PlusRoot(sphere, ray, sqrt)
  {
    RootsOrdered(sphere, ray, sqrt);
  }

  /** A `t` with `2*t == s - b` solves `t^2 + b*t + c == 0` when `s` is a square root of the discriminant. */
  lemma MonicRoot(b: real, c: real, s: real, t: real)
    requires s * s == b * b - 4.0 * c && 2.0 * t == s - b
    ensures t * t + b * t + c == 0.0
  {
    assert 4.0 * (t * t + b * t + c) == (2.0 * t) * (2.0 * t) + 2.0 * b * (2.0 * t) + 4.0 * c;
    assert (s - b) * (s - b) + 2.0 * b * (s - b) == s * s - b * b;
  }

  /** Both roots solve the intersection quadratic `A*t^2 + B*t + C == 0`. */
  lemma RootsSolveQuadratic(sphere: Sphere, ray: Ray, sqrt: real -> real)
    requires IsSqrt(sqrt) && Directed(ray) && Discriminant(sphere, ray) > 0.0
    ensures IsRoot(sphere, ray, PlusRoot(sphere, ray, sqrt)) && IsRoot(sphere, ray, MinusRoot(sphere, ray, sqrt))
  {
    var b := QuadraticB(sphere, ray);
    var c := QuadraticC(sphere, ray);
    var s := sqrt(Discriminant(sphere, ray));
    assert QuadraticA(ray) == 1.0;
    assert s * s == b * b - 4.0 * c;
    MonicRoot(b, c, s, PlusRoot(sphere, ray, sqrt));
    assert (-s) * (-s) == s * s;
    MonicRoot(b, c, -s, MinusRoot(sphere, ray, sqrt));
  }

  /** The distance of a hit solves the intersection quadratic `A*t^2 + B*t + C == 0`. */
  lemma IntersectSolvesQuadratic(sphere: Sphere, id: nat, ray: Ray, sqrt: real -> real)
    requires IsSqrt(sqrt) && Normalized(ray) && Intersect(sphere, id, ray, sqrt).Some?
    ensures var t := Intersect(sphere, id, ray, sqrt).value.distance;
      IsRoot(sphere, ray, t)
  {
    var t := Intersect(sphere, id, ray, sqrt).value.distance;
    EitherRootSolvesQuadratic(sphere, ray, sqrt, t);
  }

  /** Either root solves the intersection quadratic. */
  lemma EitherRootSolvesQuadratic(sphere: Sphere, ray: Ray, sqrt: real -> real, t: real)
    requires IsSqrt(sqrt) && Directed(ray) && Discriminant(sphere, ray) > 0.0
    requires t == PlusRoot(sphere, ray, sqrt) || t == MinusRoot(sphere, ray, sqrt)
    ensures IsRoot(sphere, ray, t)
  {
    RootsSolveQuadratic(sphere, ray, sqrt);
  }

  /** `|oc + t*d|^2` expands into the terms of the intersection quadratic. */
  lemma ExpandOffset(oc: Vec3, d: Vec3, t: real)
    ensures Dot(Add(oc, Scale(d, t)), Add(oc, Scale(d, t)))
         == Dot(oc, oc) + 2.0 * t * Dot(d, oc) + t * t * Dot(d, d)
  {
  }

  /** A point of the ray lies on the sphere exactly when its parameter solves the quadratic. */
  lemma QuadraticRootOnSphere(sphere: Sphere, ray: Ray, t: real)
    ensures IsRoot(sphere, ray, t)
        <==> Dot(Sub(At(ray, t), sphere.center), Sub(At(ray, t), sphere.center)) == sphere.radius * sphere.radius
  {
    var oc := Sub(ray.origin, sphere.center);
    assert Sub(At(ray, t), sphere.center) == Add(oc, Scale(ray.direction, t));
    ExpandOffset(oc, ray.direction, t);
    assert QuadraticA(ray) * t * t == t * t * Dot(ray.direction, ray.direction);
    assert QuadraticB(sphere, ray) * t == 2.0 * t * Dot(ray.direction, oc);
  }

  /** Every root of the intersection quadratic is at most the larger root. */
  lemma RootAtMostPlus(sphere: Sphere, ray: Ray, sqrt: real -> real, t: real)
    requires IsSqrt(sqrt) && Directed(ray) && Discriminant(sphere, ray) > 0.0
    requires IsRoot(sphere, ray, t)
    ensures t <= PlusRoot(sphere, ray, sqrt)
  {
    var b := QuadraticB(sphere, ray);
    var c := QuadraticC(sphere, ray);
    var s := sqrt(Discriminant(sphere, ray));
    var p := PlusRoot(sphere, ray, sqrt);
    var m := MinusRoot(sphere, ray, sqrt);
    assert QuadraticA(ray) == 1.0;
    assert s * s == b * b - 4.0 * c;
    assert 2.0 * p == s - b && 2.0 * m == -s - b;
    assert p * m == c by {
      assert 4.0 * (p * m) == (2.0 * p) * (2.0 * m);
      assert (s - b) * (-s - b) == b * b - s * s;
    }
    assert (t - p) * (t - m) == t * t - (p + m) * t + p * m;
    assert (t - p) * (t - m) == 0.0;
    if p < t {
      RootsOrdered(sphere, ray, sqrt);
      PositiveProduct(t - p, t - m);
    }
  }

  /**
   * A point of the sphere strictly ahead on a ray that crosses the sphere
   * (positive discriminant) means the ray hits the sphere.
   */
  lemma PointAheadOnSphereHits(sphere: Sphere, id: nat, ray: Ray, sqrt: real -> real, t: real)
    requires IsSqrt(sqrt) && Directed(ray) && Discriminant(sphere, ray) > 0.0 && 0.0 < t
    requires Dot(Sub(At(ray, t), sphere.center), Sub(At(ray, t), sphere.center)) == sphere.radius * sphere.radius
    ensures Intersect(sphere, id, ray, sqrt).Some?
  {
    QuadraticRootOnSphere(sphere, ray, t);
    RootAtMostPlus(sphere, ray, sqrt, t);
  }

  /** A hit point lies on the sphere: its squared distance from the centre is the squared radius. */
  lemma HitOnSphere(sphere: Sphere, id: nat, ray: Ray, sqrt: real -> real)
    requires IsSqrt(sqrt) && Normalized(ray) && Intersect(sphere, id, ray, sqrt).Some?
    ensures var h := Intersect(sphere, id, ray, sqrt).value;
      Dot(Sub(h.position, sphere.center), Sub(h.position, sphere.center)) == sphere.radius * sphere.radius
  {
    IntersectSolvesQuadratic(sphere, id, ray, sqrt);
    QuadraticRootOnSphere(sphere, ray, Intersect(sphere, id, ray, sqrt).value.distance);
  }

  /**
   * A ray starting strictly inside a sphere always hits it, at the larger
   * root: the point where it leaves the sphere.
   */
  lemma OriginInsideHits(sphere: Sphere, id: nat, ray: Ray, sqrt: real -> real)
    requires IsSqrt(sqrt) && Directed(ray)
    requires QuadraticC(sphere, ray) < 0.0
    ensures Intersect(sphere, id, ray, sqrt).Some?
    ensures Intersect(sphere, id, ray, sqrt).value.distance == PlusRoot(sphere, ray, sqrt)
  {
    var b := QuadraticB(sphere, ray);
    assert QuadraticA(ray) == 1.0;
    SquareNonnegative(b);
    var delta := Discriminant(sphere, ray);
    assert delta > b * b;
    var s := sqrt(delta);
    RootExceeds(s, b);
    assert PlusRoot(sphere, ray, sqrt) > 0.0 && MinusRoot(sphere, ray, sqrt) < 0.0;
  }

  /**
   * A ray starting strictly outside a sphere and not heading towards its
   * centre (`B >= 0`) misses it.
   */
  lemma OriginOutsideHeadingAwayMisses(sphere: Sphere, id: nat, ray: Ray, sqrt: real -> real)
    requires IsSqrt(sqrt) && Normalized(ray)
    requires QuadraticC(sphere, ray) > 0.0 && QuadraticB(sphere, ray) >= 0.0
    ensures Intersect(sphere, id, ray, sqrt) == None
  {
    var delta := Discriminant(sphere, ray);
    if Directed(ray) && delta > 0.0 {
      var b := QuadraticB(sphere, ray);
      assert delta < b * b;
      var s := sqrt(delta);
      RootBelow(s, b);
      assert PlusRoot(sphere, ray, sqrt) < 0.0 && MinusRoot(sphere, ray, sqrt) <= 0.0;
    }
  }
}
