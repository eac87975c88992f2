/**
 * The scene: `Scene.closest` and `Scene.trace` in main.py, first as
 * functions over the object and light lists, then as the `Scene` class whose
 * methods run the same loops as the Python code and are proved to compute
 * those functions.
 *
 * Python compares objects by identity (`Sphere` defines no `__eq__`); here
 * an object is identified by its index in the object list, which `Hit`
 * records in `objectId`.
 */
module Scenes {
  import opened Options
  import opened Vectors
  import opened Rays
  import opened Spheres
  import opened Lights

  /**
   * One step of the scan in `Scene.closest`: a hit replaces the best hit
   * so far only when there is none yet or when it is strictly nearer.
   */
  function Keep(closest: Option<Hit>, hit: Option<Hit>): (r: Option<Hit>)
    ensures r == closest || r == hit
    ensures r.None? <==> closest.None? && hit.None?
  {
    if hit.Some? && (closest.None? || hit.value.distance < closest.value.distance) then hit
    else closest
  }

  /**
   * The best hit after `Scene.closest` has scanned the first `k` objects of
   * `objects`; `Nearest(objects, |objects|, ...)` is what it returns.
   */
  function Nearest(objects: seq<Sphere>, k: nat, ray: Ray, sqrt: real -> real): (r: Option<Hit>)
    requires IsSqrt(sqrt) && Normalized(ray) && k <= |objects|
    ensures r.Some? ==> r.value.objectId < k
  {
    if k == 0 then None
    else Keep(Nearest(objects, k - 1, ray, sqrt), Intersect(objects[k - 1], k - 1, ray, sqrt))
  }

  /** The scan finds no hit exactly when none of the scanned objects is hit; in particular with no objects. */
  lemma {:induction false} NearestNoneIffAllMiss(objects: seq<Sphere>, k: nat, ray: Ray, sqrt: real -> real)
    requires IsSqrt(sqrt) && Normalized(ray) && k <= |objects|
    ensures Nearest(objects, k, ray, sqrt).None? <==>
      forall i :: 0 <= i < k ==> Intersect(objects[i], i, ray, sqrt).None?
  {
    if k > 0 {
      NearestNoneIffAllMiss(objects, k - 1, ray, sqrt);
    }
  }

  /** The hit the scan returns is the hit its own object produces. */
  lemma {:induction false} NearestIsAHit(objects: seq<Sphere>, k: nat, ray: Ray, sqrt: real -> real)
    requires IsSqrt(sqrt) && Normalized(ray) && k <= |objects| && Nearest(objects, k, ray, sqrt).Some?
    ensures var h := Nearest(objects, k, ray, sqrt).value;
      h.objectId < k && Intersect(objects[h.objectId], h.objectId, ray, sqrt) == Some(h)
  {
    if Nearest(objects, k - 1, ray, sqrt).Some? {
      NearestIsAHit(objects, k - 1, ray, sqrt);
    }
  }

  /** No scanned object is hit strictly nearer than the hit the scan returns. */
  lemma {:induction false} NearestIsMinimal(objects: seq<Sphere>, k: nat, ray: Ray, sqrt: real -> real)
    requires IsSqrt(sqrt) && Normalized(ray) && k <= |objects| && Nearest(objects, k, ray, sqrt).Some?
    ensures forall i :: 0 <= i < k && Intersect(objects[i], i, ray, sqrt).Some? ==>
      Nearest(objects, k, ray, sqrt).value.distance <= Intersect(objects[i], i, ray, sqrt).value.distance
  {
    if Nearest(objects, k - 1, ray, sqrt).Some? {
      NearestIsMinimal(objects, k - 1, ray, sqrt);
    } else {
      NearestNoneIffAllMiss(objects, k - 1, ray, sqrt);
    }
  }

  /**
   * Every object before the one the scan reports is either missed or hit
   * strictly farther away: ties go to the object that comes first.
   */
  lemma {:induction false} NearestIsFirst(objects: seq<Sphere>, k: nat, ray: Ray, sqrt: real -> real)
    requires IsSqrt(sqrt) && Normalized(ray) && k <= |objects| && Nearest(objects, k, ray, sqrt).Some?
    ensures var h := Nearest(objects, k, ray, sqrt).value;
      forall i :: 0 <= i < h.objectId && Intersect(objects[i], i, ray, sqrt).Some? ==>
        h.distance < Intersect(objects[i], i, ray, sqrt).value.distance
  {
    var previous := Nearest(objects, k - 1, ray, sqrt);
    if previous.Some? {
      NearestIsFirst(objects, k - 1, ray, sqrt);
      NearestIsMinimal(objects, k - 1, ray, sqrt);
      NearestIsAHit(objects, k - 1, ray, sqrt);
    } else {
      NearestNoneIffAllMiss(objects, k - 1, ray, sqrt);
    }
  }

  /**
   * Two equal spheres at different indices are two objects here, whereas in
   * Python one `Sphere` object appended twice is a single object by
   * identity. The difference cannot show in `trace`: the later copy is
   * never the one `closest` reports, because the earlier copy is hit at the
   * same distance and wins the tie.
   */
  lemma LaterDuplicateNeverNearest(objects: seq<Sphere>, i: nat, j: nat, ray: Ray, sqrt: real -> real)
    requires IsSqrt(sqrt) && Normalized(ray)
    requires i < j < |objects| && objects[i] == objects[j]
    ensures Nearest(objects, |objects|, ray, sqrt).Some? ==>
      Nearest(objects, |objects|, ray, sqrt).value.objectId != j
  {
    if Nearest(objects, |objects|, ray, sqrt).Some? {
      NearestIsAHit(objects, |objects|, ray, sqrt);
      NearestIsFirst(objects, |objects|, ray, sqrt);
    }
  }

  /**
   * The shadow ray `trace` casts from the light towards the hit point: it
   * starts at the light and, unless the light sits on the hit point, reaches
   * the hit point after travelling the distance between the two.
   */
  function ShadowRay(light: PointLight, hit: Hit, sqrt: real -> real): (r: Ray)
    requires IsSqrt(sqrt)
    ensures Normalized(r) && r.origin == light.position
    ensures var distance := Length(Sub(hit.position, light.position), sqrt);
      distance != 0.0 ==> At(r, distance) == hit.position
  {
    var toHit := Sub(hit.position, light.position);
    MakeRayReaches(light.position, toHit, sqrt);
    assert Add(light.position, toHit) == hit.position;
    MakeRay(light.position, toHit, sqrt)
  }

  /** The light reaches the hit point: the nearest object along the shadow ray is the one that was hit. */
  predicate Lit(objects: seq<Sphere>, light: PointLight, hit: Hit, sqrt: real -> real)
    requires IsSqrt(sqrt)
  {
    var lightHit := Nearest(objects, |objects|, ShadowRay(light, hit, sqrt), sqrt);
    lightHit.Some? && lightHit.value.objectId == hit.objectId
  }

  /** Reversing a vector does not change its length. */
  lemma LengthOfReverse(u: Vec3, v: Vec3, sqrt: real -> real)
    requires IsSqrt(sqrt)
    ensures Length(Sub(u, v), sqrt) == Length(Sub(v, u), sqrt)
  {
    assert Dot(Sub(u, v), Sub(u, v)) == Dot(Sub(v, u), Sub(v, u));
  }

  /**
   * A lit hit point is apart from the light: a light sitting on the hit
   * point casts a shadow ray without direction, which hits nothing. So
   * `intensity_at` is never asked to divide by zero.
   */
  lemma {:induction false} LitLightApart(objects: seq<Sphere>, light: PointLight, hit: Hit, sqrt: real -> real)
    requires IsSqrt(sqrt) && Lit(objects, light, hit, sqrt)
    ensures Length(ToLight(light, hit), sqrt) != 0.0
  {
    var ray := ShadowRay(light, hit, sqrt);
    NearestNoneIffAllMiss(objects, |objects|, ray, sqrt);
    var i :| 0 <= i < |objects| && Intersect(objects[i], i, ray, sqrt).Some?;
    assert !IsZero(ray.direction);
    LengthOfReverse(light.position, hit.position, sqrt);
  }

  /** What one light adds to the intensity at a hit: `intensity_at` when lit, nothing in shadow. */
  function Contribution(objects: seq<Sphere>, light: PointLight, hit: Hit, sqrt: real -> real): (r: real)
    requires IsSqrt(sqrt)
    ensures 0.0 <= r
    ensures !Lit(objects, light, hit, sqrt) ==> r == 0.0
  {
    if Lit(objects, light, hit, sqrt) then
      LitLightApart(objects, light, hit, sqrt);
      IntensityAt(light, hit, sqrt)
    else 0.0
  }

  /** The sum of the contributions of the first `k` lights, in list order. */
  function LightSum(objects: seq<Sphere>, lights: seq<PointLight>, k: nat, hit: Hit, sqrt: real -> real): (r: real)
    requires IsSqrt(sqrt) && k <= |lights|
    ensures 0.0 <= r
  {
    if k == 0 then 0.0
    else LightSum(objects, lights, k - 1, hit, sqrt) + Contribution(objects, lights[k - 1], hit, sqrt)
  }

  /** The shadow ray `trace` builds is `ShadowRay`, so its nearest hit decides `Lit`. */
  lemma LitIffShadowHit(objects: seq<Sphere>, light: PointLight, hit: Hit, lightHit: Option<Hit>, sqrt: real -> real)
    requires IsSqrt(sqrt)
    requires lightHit == Nearest(objects, |objects|, MakeRay(light.position, Sub(hit.position, light.position), sqrt), sqrt)
    ensures Lit(objects, light, hit, sqrt) <==> lightHit.Some? && lightHit.value.objectId == hit.objectId
  {
    assert MakeRay(light.position, Sub(hit.position, light.position), sqrt) == ShadowRay(light, hit, sqrt);
  }

  /** One more light adds its contribution to the sum. */
  lemma LightSumStep(objects: seq<Sphere>, lights: seq<PointLight>, k: nat, hit: Hit, sqrt: real -> real)
    requires IsSqrt(sqrt) && k < |lights|
    ensures LightSum(objects, lights, k + 1, hit, sqrt)
         == LightSum(objects, lights, k, hit, sqrt) + Contribution(objects, lights[k], hit, sqrt)
  {
  }

  /** Python's `min(intensity, 1)`. */
  function Min(a: real, b: real): (r: real)
    ensures r <= a && r <= b && (r == a || r == b)
  {
    if b < a then b else a
  }

  /** The factor `trace` scales the object colour by: ambient plus lights, capped at 1. */
  function ShadeFactor(objects: seq<Sphere>, lights: seq<PointLight>, ambient: real, hit: Hit, sqrt: real -> real): (f: real)
    requires IsSqrt(sqrt)
    ensures Min(ambient, 1.0) <= f <= 1.0
  {
    Min(ambient + LightSum(objects, lights, |lights|, hit, sqrt), 1.0)
  }

  /**
   * The colour `Scene.trace(ray)` returns: the background when nothing is
   * hit, otherwise the colour of the object hit, scaled by `ShadeFactor`.
   */
  function Shade(objects: seq<Sphere>, lights: seq<PointLight>, background: Vec3, ambient: real,
                 ray: Ray, sqrt: real -> real): Vec3
    requires IsSqrt(sqrt) && Normalized(ray)
  {
    var nearest := Nearest(objects, |objects|, ray, sqrt);
    if nearest.None? then background
    else
      var h := nearest.value;
      Scale(objects[h.objectId].color, ShadeFactor(objects, lights, ambient, h, sqrt))
  }

  /**
   * `shaded` is `color` dimmed by a factor of at least `m`: every
   * non-negative channel `ch` of `color` becomes a value between `m * ch`
   * and `ch`.
   */
  predicate DimmedBetween(shaded: Vec3, color: Vec3, m: real) {
    && (0.0 <= color.x ==> m * color.x <= shaded.x <= color.x)
    && (0.0 <= color.y ==> m * color.y <= shaded.y <= color.y)
    && (0.0 <= color.z ==> m * color.z <= shaded.z <= color.z)
  }

  /** A colour scaled by a factor in `[m, 1]` is dimmed by a factor of at least `m`. */
  lemma ScaledColorBounds(color: Vec3, m: real, f: real)
    requires m <= f <= 1.0
    ensures DimmedBetween(Scale(color, f), color, m)
  {
    if 0.0 <= color.x { ChannelBounds(m, f, color.x); }
    if 0.0 <= color.y { ChannelBounds(m, f, color.y); }
    if 0.0 <= color.z { ChannelBounds(m, f, color.z); }
  }

  lemma ChannelBounds(m: real, f: real, channel: real)
    requires m <= f <= 1.0 && 0.0 <= channel
    ensures m * channel <= f * channel <= channel
  {
    NonnegativeProduct(f - m, channel);
    NonnegativeProduct(1.0 - f, channel);
  }

  /**
   * A missed ray shows the background. A hit object is shown no brighter
   * than its own colour and no darker than its colour under ambient light
   * alone: every non-negative channel `ch` of its colour becomes a value
   * between `min(ambient, 1) * ch` and `ch`.
   */
  lemma ShadeBounds(objects: seq<Sphere>, lights: seq<PointLight>, background: Vec3, ambient: real,
                    ray: Ray, sqrt: real -> real)
    requires IsSqrt(sqrt) && Normalized(ray)
    ensures Nearest(objects, |objects|, ray, sqrt).None? ==>
      Shade(objects, lights, background, ambient, ray, sqrt) == background
    ensures Nearest(objects, |objects|, ray, sqrt).Some? ==>
      DimmedBetween(Shade(objects, lights, background, ambient, ray, sqrt),
                    objects[Nearest(objects, |objects|, ray, sqrt).value.objectId].color, Min(ambient, 1.0))
  {
    var nearest := Nearest(objects, |objects|, ray, sqrt);
    if nearest.Some? {
      var h := nearest.value;
      var color := objects[h.objectId].color;
      var f := ShadeFactor(objects, lights, ambient, h, sqrt);
      assert Shade(objects, lights, background, ambient, ray, sqrt) == Scale(color, f);
      ScaledColorBounds(color, Min(ambient, 1.0), f);
    }
  }

  /**
   * An object never casts a shadow on itself. Take a sphere alone in the
   * scene, a point where a camera ray hits it, and a light away from that
   * point. The light is lit exactly when its shadow ray crosses the sphere
   * (positive discriminant): the hit point lies ahead on the shadow ray, so
   * the sphere is hit, and its identity is the one recorded in the hit. A
   * grazing shadow ray (discriminant 0) counts as a miss; the light then
   * lies in the tangent plane at the hit point, where `cos_theta` is 0.
   */
  lemma SphereDoesNotShadowItself(sphere: Sphere, cameraRay: Ray, light: PointLight, sqrt: real -> real)
    requires IsSqrt(sqrt) && Normalized(cameraRay) && Intersect(sphere, 0, cameraRay, sqrt).Some?
    requires Length(ToLight(light, Intersect(sphere, 0, cameraRay, sqrt).value), sqrt) != 0.0
    ensures var h := Intersect(sphere, 0, cameraRay, sqrt).value;
      Lit([sphere], light, h, sqrt) <==> Discriminant(sphere, ShadowRay(light, h, sqrt)) > 0.0
  {
    var h := Intersect(sphere, 0, cameraRay, sqrt).value;
    var ray := ShadowRay(light, h, sqrt);
    assert Nearest([sphere], 1, ray, sqrt) == Intersect(sphere, 0, ray, sqrt);
    if Discriminant(sphere, ray) > 0.0 {
      var toHit := Sub(h.position, light.position);
      LengthOfReverse(light.position, h.position, sqrt);
      assert Directed(ray);
      HitOnSphere(sphere, 0, cameraRay, sqrt);
      PointAheadOnSphereHits(sphere, 0, ray, sqrt, Length(toHit, sqrt));
    }
  }

  /** Lights that do not reach the hit point add nothing. */
  lemma {:induction false} ShadowedLightsAddNothing(objects: seq<Sphere>, lights: seq<PointLight>, k: nat,
                                                    hit: Hit, sqrt: real -> real)
    requires IsSqrt(sqrt) && k <= |lights|
    requires forall i :: 0 <= i < k ==> !Lit(objects, lights[i], hit, sqrt)
    ensures LightSum(objects, lights, k, hit, sqrt) == 0.0
  {
    if k > 0 {
      ShadowedLightsAddNothing(objects, lights, k - 1, hit, sqrt);
    }
  }

  /** A hit point no light reaches is shaded by the ambient light alone, capped at 1. */
  lemma ShadowedHitIsAmbient(objects: seq<Sphere>, lights: seq<PointLight>, ambient: real,
                             hit: Hit, sqrt: real -> real)
    requires IsSqrt(sqrt)
    requires forall i :: 0 <= i < |lights| ==> !Lit(objects, lights[i], hit, sqrt)
    ensures ShadeFactor(objects, lights, ambient, hit, sqrt) == Min(ambient, 1.0)
  {
    ShadowedLightsAddNothing(objects, lights, |lights|, hit, sqrt);
  }

  /**
   * A light that reaches the hit point from behind the surface (its direction
   * makes an obtuse angle with the normal) adds nothing.
   */
  lemma LightBehindAddsNothing(objects: seq<Sphere>, light: PointLight, hit: Hit, sqrt: real -> real)
    requires IsSqrt(sqrt) && 0.0 <= light.intensity
    requires Lit(objects, light, hit, sqrt)
    requires CosTheta(light, hit, sqrt) <= 0.0
    ensures Contribution(objects, light, hit, sqrt) == 0.0
  {
    LitLightApart(objects, light, hit, sqrt);
    LightBehindSurface(light, hit, sqrt);
  }

  /** With no objects every ray shows the background. */
  lemma EmptySceneIsBackground(lights: seq<PointLight>, background: Vec3, ambient: real,
                               ray: Ray, sqrt: real -> real)
    requires IsSqrt(sqrt) && Normalized(ray)
    ensures Shade([], lights, background, ambient, ray, sqrt) == background
  {
  }

  /**
   * A scene object holding the background colour, the ambient light and the
   * object and light lists, which are filled by appending.
   */
  class Scene {
    const background: Vec3
    const ambientLight: real
    var objects: seq<Sphere>
    var lights: seq<PointLight>

    /** `Scene(background, ambient_light)`: no objects and no lights yet. */
    constructor(background: Vec3, ambientLight: real)
      ensures this.background == background && this.ambientLight == ambientLight
      ensures objects == [] && lights == []
    {
      this.background := background;
      this.ambientLight := ambientLight;
      objects := [];
      lights := [];
    }

    /** `scene.objects.append(sphere)` */
    method AddObject(sphere: Sphere)
      modifies this
      ensures objects == old(objects) + [sphere] && lights == old(lights)
    {
      objects := objects + [sphere];
    }

    /** `scene.lights.append(light)` */
    method AddLight(light: PointLight)
      modifies this
      ensures lights == old(lights) + [light] && objects == old(objects)
    {
      lights := lights + [light];
    }

    /** `Scene.closest`: scans the objects in order, keeping the strictly nearer hit. */
    method Closest(ray: Ray, sqrt: real -> real) returns (closestHit: Option<Hit>)
      requires IsSqrt(sqrt) && Normalized(ray)
      ensures closestHit == Nearest(objects, |objects|, ray, sqrt)
    {
      closestHit := None;
      var k := 0;
      while k < |objects|
        invariant 0 <= k <= |objects|
        invariant closestHit == Nearest(objects, k, ray, sqrt)
      {
        var hit := Intersect(objects[k], k, ray, sqrt);
        if hit.Some? && (closestHit.None? || hit.value.distance < closestHit.value.distance) {
          closestHit := hit;
        }
        k := k + 1;
      }
    }

    /** `Scene.trace`: the colour seen along `ray`. */
    method Trace(ray: Ray, sqrt: real -> real) returns (color: Vec3)
      requires IsSqrt(sqrt) && Normalized(ray)
      ensures color == Shade(objects, lights, background, ambientLight, ray, sqrt)
    {
      var closestHit := Closest(ray, sqrt);
      if closestHit.None? {
        return background;
      }
      var h := closestHit.value;
      var intensity := ambientLight;
      var k := 0;
      while k < |lights|
        invariant 0 <= k <= |lights|
        invariant intensity == ambientLight + LightSum(objects, lights, k, h, sqrt)
      {
        var light := lights[k];
        var lightRay := MakeRay(light.position, Sub(h.position, light.position), sqrt);
        var lightHit := Closest(lightRay, sqrt);
        LitIffShadowHit(objects, light, h, lightHit, sqrt);
        if lightHit.Some? && lightHit.value.objectId == h.objectId {
          LitLightApart(objects, light, h, sqrt);
          intensity := intensity + IntensityAt(light, h, sqrt);
        }
        LightSumStep(objects, lights, k, h, sqrt);
        k := k + 1;
      }
      color := Scale(objects[h.objectId].color, Min(intensity, 1.0));
    }
  }
}
