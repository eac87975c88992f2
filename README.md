# A verified model of a small Python ray tracer

This project models the core of a Python/glm ray tracer (`main.py`) in Dafny
and proves properties of it:

- rays with a normalised direction, and the pinhole camera that casts them;
- ray–sphere intersection by the quadratic formula;
- point lights with cosine-weighted, inverse-square intensity;
- the scene, which finds the nearest hit along a ray and shades it with
  ambient light plus every light that reaches the hit point unobstructed.

Arithmetic is over exact `real`s, standing in for Python floats. The
square root is not computable over the reals, so it is a parameter `sqrt`.
Every member that needs it requires `IsSqrt(sqrt)`: on non-negative
arguments `sqrt` returns the non-negative root. `glm.length` and
`glm.normalize` are built on it. An object is identified by its index in
the scene's object list, standing in for Python's identity comparison of
`Sphere` objects (the class defines no `__eq__`). The two differ for one
`Sphere` object appended twice: Python sees one object, the model two.
`Scenes.LaterDuplicateNeverNearest` shows that `trace` cannot tell the
difference, because the later copy is never the one `closest` reports.

Files, leaves first:

- `vectors.dfy`: `Option` and the `Vec3` operations.
- `rays.dfy`: `Ray` and `Camera.get_ray`.
- `spheres.dfy`: `Hit` and `Sphere.intersect`.
- `lights.dfy`: `PointLight.intensity_at`.
- `scenes.dfy`: `Scene`.

`Scene.closest` and `Scene.trace` are first specified as functions
(`Nearest`, `Shade`). The `Scene` class then runs the same loops as the
Python code, and each of its methods is proved to compute the matching
function.

A zero-length vector needs care. glm normalises it into a vector of NaNs.
Nothing in the code rules out a zero direction, and the model follows the
code. A ray built from a zero vector has a NaN discriminant, which fails
`if(delta > 0)` just as a non-positive discriminant does, so `intersect`
returns `None`. The model keeps the zero vector in place of the NaNs
(`Normalize` returns its argument when the length is 0), and `Intersect`
returns `None` for a ray without direction. A light
sitting exactly on the hit point would make `intensity_at` divide by zero.
The model shows that `trace` never makes that call: such a light's shadow
ray has no direction and misses everything, so the light never counts as
lit.

## Model

| member | source | states |
|---|---|---|
| Vectors.Length | main.py:73 | `glm.length` is a non-negative root of the squared norm |
| Vectors.Normalize | main.py:9 | `glm.normalize`: the length is zero exactly when the result is the zero vector; otherwise the result is a unit vector whose dot product with the argument is the argument's length (it points the same way) |
| Rays.MakeRay | main.py:6-9 | `Ray(origin, direction)` keeps the origin and stores `normalize(direction)`; the stored direction is a unit vector or, exactly when the argument has length 0, the zero vector |
| Rays.MakeRayReaches | main.py:6-12 | a ray built from `origin` and a nonzero `direction` reaches `origin + direction` after travelling the length of `direction`: `at` and the normalisation together measure distance |
| Rays.AtZero | main.py:11-12 | `ray.at(0)`, modelled by `Rays.At`, is the origin |
| Rays.AtDistance | main.py:11-12 | along a unit direction, `at(t)` lies at squared distance `t*t` from the origin, so `t` is the distance travelled |
| Rays.GetRay | main.py:29-33 | `get_ray` returns a ray from the camera centre whose direction is the normalised sensor point |
| Rays.SensorPointOffsets | main.py:30-32 | the sensor point is `front*focal + right*(j - w/2)/w + up*(i - h/2)/w`: pixels are square, and both offsets are measured in sensor widths |
| Rays.SensorPointCentre | main.py:29-32 | the centre of the sensor lies straight ahead, at `front*focal` |
| Rays.SensorCoordinates | main.py:29-32 | with an orthonormal basis, the sensor point's coordinates along `front`, `right` and `up` are the focal length and the two pixel offsets |
| Spheres.Bhaskara | main.py:56 | the `bhaskara` lambda's result `t` satisfies `2*a*t == d - b` |
| Spheres.PositiveOnly | main.py:58 | the comprehension keeps exactly the strictly positive solutions, and no more elements than it was given |
| Spheres.MinOf | main.py:60 | `min` of a non-empty list is an element of it and no larger than any element |
| Spheres.Intersect | main.py:48-64 | no hit for a ray without direction or when `delta <= 0`; a hit exactly when `delta > 0` and some root is strictly positive; a hit is at a strictly positive root no larger than either positive root, has position `at(distance)`, carries the sphere's own identity, and its normal is the normalised vector from the centre |
| Spheres.RootsOrdered | main.py:55-57 | the root taken with `-sqrt(delta)` is never the larger one |
| Spheres.IntersectNearerRoot | main.py:57-60 | the hit distance is the smaller root when that root is positive, and the larger root otherwise |
| Spheres.RootsSolveQuadratic | main.py:49-57 | both roots solve `a*t*t + b*t + c == 0` (the predicate `IsRoot`) |
| Spheres.EitherRootSolvesQuadratic | main.py:55-57 | whichever of the two roots is picked solves the quadratic |
| Spheres.IntersectSolvesQuadratic | main.py:49-60 | the distance of a hit solves `a*t*t + b*t + c == 0` |
| Spheres.QuadraticRootOnSphere | main.py:49-53 | a point `at(t)` is at distance `radius` from the centre exactly when `t` solves the quadratic |
| Spheres.RootAtMostPlus | main.py:53-57 | every solution of the quadratic is at most the root taken with `+sqrt(delta)` |
| Spheres.PointAheadOnSphereHits | main.py:48-63 | a ray with positive discriminant that has a point of the sphere strictly ahead hits the sphere |
| Spheres.HitOnSphere | main.py:48-63 | a hit position lies on the sphere: its squared distance from the centre is `radius**2` |
| Spheres.OriginInsideHits | main.py:48-60 | a ray starting strictly inside a sphere always hits it, at the larger root, where it leaves |
| Spheres.OriginOutsideHeadingAwayMisses | main.py:48-64 | a ray starting strictly outside a sphere with `b >= 0` (not heading towards the centre) misses it |
| Lights.IntensityAt | main.py:71-76 | `intensity_at` is never negative; it is positive exactly when `intensity * cos_theta` is positive; a positive value times the squared distance gives back `intensity * cos_theta` (inverse-square law) |
| Lights.LightBehindSurface | main.py:75-76 | with a non-negative intensity and `cos_theta <= 0` (light behind the surface) the intensity is exactly 0 |
| Scenes.Keep | main.py:89-90 | one step of the scan keeps either the old best or the new hit, and has no hit only if neither exists |
| Scenes.Nearest | main.py:85-91 | a hit found by scanning the first `k` objects belongs to one of them |
| Scenes.NearestNoneIffAllMiss | main.py:86-91 | `closest` finds no hit exactly when no object intersects the ray; in particular it finds none with no objects |
| Scenes.NearestIsAHit | main.py:87-90 | the reported hit is the hit its own object's `intersect` returns |
| Scenes.NearestIsMinimal | main.py:87-90 | no object is hit strictly nearer than the reported hit |
| Scenes.NearestIsFirst | main.py:89 | every object before the reported one is missed or hit strictly farther away, so the lowest index wins ties |
| Scenes.LaterDuplicateNeverNearest | main.py:87-90 | of two equal spheres in the list, the later one is never reported |
| Scenes.ShadowRay | main.py:98 | the shadow ray starts at the light, has a normalised direction and, unless the light sits on the hit point, reaches the hit point after travelling the light-to-hit distance |
| Scenes.LitIffShadowHit | main.py:98-100 | the ray `trace` builds is the shadow ray, so the light counts as lit (`Scenes.Lit`) exactly when the shadow ray's nearest hit carries the identity of the shaded object |
| Scenes.SphereDoesNotShadowItself | main.py:98-100 | for a sphere alone in the scene and a light away from a camera hit on it, the light is lit exactly when the shadow ray crosses the sphere (positive discriminant): the object never blocks its own light; a grazing shadow ray counts as a miss |
| Scenes.LitLightApart | main.py:98-101 | a light whose shadow ray's nearest hit is the shaded object is not at the hit point, so `intensity_at` never divides by zero |
| Scenes.Contribution | main.py:99-101 | a light adds a non-negative amount, and nothing unless it is lit (`Scenes.Lit`: its shadow ray's nearest hit is the shaded object) |
| Scenes.LightSum | main.py:96-101 | the accumulated light is never negative |
| Scenes.LightSumStep | main.py:97-101 | one more light adds exactly its own contribution to the sum |
| Scenes.Min | main.py:102 | `min(a, b)` is one of its arguments and no larger than either |
| Scenes.ShadeFactor | main.py:96-102 | the factor the colour is scaled by lies between `min(ambient, 1)` and 1 |
| Scenes.ShadeBounds | main.py:93-104 | `trace` returns the background on a miss; a hit object is shown no brighter than its own colour and no darker than under ambient light alone: each non-negative channel `ch` becomes a value between `min(ambient, 1) * ch` and `ch` |
| Scenes.ShadowedLightsAddNothing | main.py:97-101 | lights that do not reach the hit point add nothing to the intensity |
| Scenes.ShadowedHitIsAmbient | main.py:96-102 | a hit point that no light reaches is shaded by `min(ambient, 1)` alone |
| Scenes.LightBehindAddsNothing | main.py:100-101 | a light that reaches the hit point from behind the surface adds nothing |
| Scenes.EmptySceneIsBackground | main.py:93-104 | with no objects, every ray shows the background |
| Scenes.Scene.constructor | main.py:79-83 | a new scene stores the background and the ambient light, and has no objects or lights |
| Scenes.Scene.AddObject | main.py:129-142 | `scene.objects.append(sphere)` appends the sphere and leaves the lights alone |
| Scenes.Scene.AddLight | main.py:126-127 | `scene.lights.append(light)` appends the light and leaves the objects alone |
| Scenes.Scene.Closest | main.py:85-91 | the loop in `closest` computes `Nearest` over all the objects |
| Scenes.Scene.Trace | main.py:93-104 | the loops in `trace` compute `Shade`: the background on a miss, otherwise the hit object's colour scaled by `ShadeFactor`, that is by `min(ambient + sum of the lit lights' intensities, 1)` |

## Left out

- `render` (pygame window, event loop, `set_at`, `display.flip`) is platform I/O around an endless loop. It is not modelled.
- `Camera.__init__` builds `right`, `up` and `front` from Euler angles with `glm.radians`, `glm.rotate` and `vec4 * mat4` products. The model takes the three vectors as fields of `Camera`. Their fourth (`w`) component, which `vec3(direction)` drops in `get_ray`, does not appear.
- Floating point: all arithmetic is exact over `real`. Rounding, overflow and NaN propagation are not modelled, except for the NaN vector of a zero-length normalisation, which is represented as described above. `math.sqrt` and `glm.length` are the exact root supplied as the `sqrt` parameter.
- Rays.GetRay: requires a nonzero sensor width and height. Python raises `ZeroDivisionError` at `j/self.width` and `i/self.height` otherwise. The model does not represent the exception.
- Lights.IntensityAt: requires the light to be away from the hit point. Python raises `ZeroDivisionError` there. The model does not represent the exception, and `Scene.Trace` provably never makes that call.
- The scene hard-coded under `__main__` is configuration only and is not modelled.
- Hit: the normal's unit length is not stated on its own. It follows from `Normalize` once the radius is nonzero, and that step is not proved.
