/**
 * Rays and the pinhole camera of the ray tracer (`Ray` and `Camera.get_ray`
 * in main.py).
 */
module Rays {
  import opened Vectors

  /** A ray: an origin and a direction that the constructor normalises. */
  datatype Ray = Ray(origin: Vec3, direction: Vec3)

  /**
   * What every `Ray` object satisfies once constructed: its direction is a
   * unit vector, or the zero vector where glm would have produced NaNs.
   */
  predicate Normalized(r: Ray) {
    IsZero(r.direction) || Dot(r.direction, r.direction) == 1.0
  }

  /** `Ray(origin, direction)`: the direction is stored normalised. */
  function MakeRay(origin: Vec3, direction: Vec3, sqrt: real -> real): (r: Ray)
    requires IsSqrt(sqrt)
    ensures r.origin == origin && r.direction == Normalize(direction, sqrt)
    ensures Normalized(r)
    ensures IsZero(r.direction) <==> Length(direction, sqrt) == 0.0
  {
    Ray(origin, Normalize(direction, sqrt))
  }

  /** `Ray.at(t)`: the point reached after travelling `t` along the ray. */
  function At(r: Ray, t: real): Vec3 {
    Add(r.origin, Scale(r.direction, t))
  }

  /**
   * A ray built towards `origin + direction` gets there: travelling the
   * length of `direction` along it reaches that point.
   */
  lemma MakeRayReaches(origin: Vec3, direction: Vec3, sqrt: real -> real)
    requires IsSqrt(sqrt)
    ensures Length(direction, sqrt) != 0.0 ==>
      At(MakeRay(origin, direction, sqrt), Length(direction, sqrt)) == Add(origin, direction)
  {
    var len := Length(direction, sqrt);
    if len != 0.0 {
      assert MakeRay(origin, direction, sqrt).direction == Scale(direction, 1.0 / len);
      assert len * (1.0 / len) == 1.0;
      assert Scale(Scale(direction, 1.0 / len), len) == direction;
    }
  }

  /** The ray starts at its origin. */
  lemma AtZero(r: Ray)
    ensures At(r, 0.0) == r.origin
  {
  }

  /**
   * Along a ray with a unit direction, `t` is the distance travelled: the
   * squared distance from the origin to `At(r, t)` is `t * t`.
   */
  lemma AtDistance(r: Ray, t: real)
    requires Normalized(r) && !IsZero(r.direction)
    ensures Dot(Sub(At(r, t), r.origin), Sub(At(r, t), r.origin)) == t * t
  {
    var d := Sub(At(r, t), r.origin);
    assert d == Scale(r.direction, t);
    assert Dot(d, d) == (t * t) * Dot(r.direction, r.direction);
  }

  /**
   * A camera whose orientation is already resolved into the `right`, `up`
   * and `front` vectors; `width` and `height` are the sensor size in pixels.
   */
  datatype Camera = Camera(
    center: Vec3,
    right: Vec3,
    up: Vec3,
    front: Vec3,
    width: int,
    height: int,
    focalLength: real)

  /** Python divides by both sensor dimensions. */
  predicate ValidSensor(cam: Camera) {
    cam.width != 0 && cam.height != 0
  }

  /**
   * The unnormalised direction `get_ray` builds for the sample point `(j, i)`:
   * `front` scaled by the focal length, plus the horizontal and the
   * aspect-corrected vertical offsets.
   */
  function SensorPoint(cam: Camera, j: real, i: real): Vec3
    requires ValidSensor(cam)
  {
    var w := cam.width as real;
    var h := cam.height as real;
    var direction := Scale(cam.front, cam.focalLength);
    var direction := Add(direction, Scale(cam.right, j / w - 0.5));
    Add(direction, Scale(Scale(cam.up, h / w), i / h - 0.5))
  }

  /** `Camera.get_ray(j, i)`: a ray from the camera centre through the sensor point. */
  function GetRay(cam: Camera, j: real, i: real, sqrt: real -> real): (r: Ray)
    requires IsSqrt(sqrt) && ValidSensor(cam)
    ensures r.origin == cam.center
    ensures r.direction == Normalize(SensorPoint(cam, j, i), sqrt)
    ensures Normalized(r)
  {
    MakeRay(cam.center, SensorPoint(cam, j, i), sqrt)
  }

  /**
   * Pixels are square: the offset along `right` is `(j - width/2) / width` and
   * the offset along `up` is `(i - height/2) / width`, both measured in units
   * of the sensor width.
   */
  lemma SensorPointOffsets(cam: Camera, j: real, i: real)
    requires ValidSensor(cam)
    ensures SensorPoint(cam, j, i) ==
      Add(Add(Scale(cam.front, cam.focalLength),
              Scale(cam.right, (j - cam.width as real / 2.0) / cam.width as real)),
          Scale(cam.up, (i - cam.height as real / 2.0) / cam.width as real))
  {
    var w := cam.width as real;
    var h := cam.height as real;
    CentredOffset(j, w);
    AspectOffset(i, h, w);
    var k := (i - h / 2.0) / w;
    assert Scale(Scale(cam.up, h / w), i / h - 0.5) == Scale(cam.up, k) by {
      assert (i / h - 0.5) * (h / w) == k;
    }
  }

  /** `j / w - 0.5` is the offset of `j` from the middle of `[0, w]`, divided by `w`. */
  lemma CentredOffset(j: real, w: real)
    requires w != 0.0
    ensures j / w - 0.5 == (j - w / 2.0) / w
  {
    assert (w / 2.0) / w == 0.5;
    assert (j - w / 2.0) / w == j / w - (w / 2.0) / w;
  }

  /** Scaling the vertical offset by `h / w` measures it in units of `w`. */
  lemma AspectOffset(i: real, h: real, w: real)
    requires w != 0.0 && h != 0.0
    ensures (i / h - 0.5) * (h / w) == (i - h / 2.0) / w
  {
    assert (i / h - 0.5) * h == i - h / 2.0;
    assert (i / h - 0.5) * (h / w) == ((i / h - 0.5) * h) / w;
  }

  /** The centre of the sensor lies straight ahead, at the focal length along `front`. */
  lemma SensorPointCentre(cam: Camera)
    requires ValidSensor(cam)
    ensures SensorPoint(cam, cam.width as real / 2.0, cam.height as real / 2.0)
         == Scale(cam.front, cam.focalLength)
  {
    var w := cam.width as real;
    var h := cam.height as real;
    SensorPointOffsets(cam, w / 2.0, h / 2.0);
    assert (w / 2.0 - w / 2.0) / w == 0.0 && (h / 2.0 - h / 2.0) / w == 0.0;
    var f := Scale(cam.front, cam.focalLength);
    AddNothing(f, cam.right);
    AddNothing(f, cam.up);
  }

  /** Adding a vector scaled by zero changes nothing. */
  lemma AddNothing(u: Vec3, v: Vec3)
    ensures Add(u, Scale(v, 0.0)) == u
  {
  }

  /** `right`, `up` and `front` form an orthonormal basis. */
  predicate Orthonormal(cam: Camera) {
    && Dot(cam.right, cam.right) == 1.0 && Dot(cam.up, cam.up) == 1.0
    && Dot(cam.front, cam.front) == 1.0
    && Dot(cam.right, cam.up) == 0.0 && Dot(cam.right, cam.front) == 0.0
    && Dot(cam.up, cam.front) == 0.0
  }

  /**
   * With an orthonormal basis the sensor point's coordinates recover the
   * sample: the sensor plane is perpendicular to `front` at the focal length,
   * and the offsets along `right` and `up` are the pixel offsets from the
   * sensor centre divided by the width.
   */
  lemma SensorCoordinates(cam: Camera, j: real, i: real)
    requires ValidSensor(cam) && Orthonormal(cam)
    ensures Dot(SensorPoint(cam, j, i), cam.front) == cam.focalLength
    ensures Dot(SensorPoint(cam, j, i), cam.right) == (j - cam.width as real / 2.0) / cam.width as real
    ensures Dot(SensorPoint(cam, j, i), cam.up) == (i - cam.height as real / 2.0) / cam.width as real
  {
    var w := cam.width as real;
    var h := cam.height as real;
    var f := Scale(cam.front, cam.focalLength);
    var u := (j - w / 2.0) / w;
    var v := (i - h / 2.0) / w;
    var r := Scale(cam.right, u);
    var p := Scale(cam.up, v);
    SensorPointOffsets(cam, j, i);
    forall b | b in {cam.front, cam.right, cam.up}
      ensures Dot(SensorPoint(cam, j, i), b)
           == cam.focalLength * Dot(cam.front, b) + u * Dot(cam.right, b) + v * Dot(cam.up, b)
    {
      DotLinear(Add(f, r), p, b, 1.0);
      DotLinear(f, r, b, 1.0);
      DotLinear(cam.front, cam.front, b, cam.focalLength);
      DotLinear(cam.right, cam.right, b, u);
      DotLinear(cam.up, cam.up, b, v);
    }
    assert Dot(cam.front, cam.right) == 0.0 && Dot(cam.front, cam.up) == 0.0;
    assert Dot(cam.up, cam.right) == 0.0;
  }
}
