/** Point lights: `PointLight.intensity_at` in main.py. */
module Lights {
  import opened Vectors
  import opened Spheres

  /** `PointLight`: a position and an intensity. */
  datatype PointLight = PointLight(position: Vec3, intensity: real)

  /** The vector from the hit point to the light. */
  function ToLight(light: PointLight, hit: Hit): Vec3 {
    Sub(light.position, hit.position)
  }

  /** The cosine of the angle between the surface normal and the direction to the light. */
  function CosTheta(light: PointLight, hit: Hit, sqrt: real -> real): real
    requires IsSqrt(sqrt)
  {
    Dot(Normalize(ToLight(light, hit), sqrt), hit.normal)
  }

  /**
   * `light.intensity_at(hit)`: the light's intensity weighted by the cosine
   * of the angle of incidence and divided by the squared distance, clamped
   * below at 0. Python raises `ZeroDivisionError` when the light sits exactly
   * on the hit point, so that case is excluded.
   *
   * The result is positive exactly when the intensity and the cosine have
   * the same strict sign, and a positive result obeys the inverse-square law:
   * multiplied by the squared distance it gives back intensity times cosine.
   */
  function IntensityAt(light: PointLight, hit: Hit, sqrt: real -> real): (r: real)
    requires IsSqrt(sqrt) && Length(ToLight(light, hit), sqrt) != 0.0
    ensures 0.0 <= r
    ensures 0.0 < r <==> 0.0 < light.intensity * CosTheta(light, hit, sqrt)
    ensures 0.0 < r ==>
      r * Dot(ToLight(light, hit), ToLight(light, hit)) == light.intensity * CosTheta(light, hit, sqrt)
  {
    var distance := Length(ToLight(light, hit), sqrt);
    var cosTheta := CosTheta(light, hit, sqrt);
    var x := light.intensity * cosTheta;
    QuotientSign(x, distance, distance);
    QuotientCancels(x, distance, distance);
    if 0.0 >= x / (distance * distance) then 0.0 else x / (distance * distance)
  }

  /** A light shining onto the back of the surface contributes nothing. */
  lemma LightBehindSurface(light: PointLight, hit: Hit, sqrt: real -> real)
    requires IsSqrt(sqrt) && Length(ToLight(light, hit), sqrt) != 0.0
    requires 0.0 <= light.intensity && CosTheta(light, hit, sqrt) <= 0.0
    ensures IntensityAt(light, hit, sqrt) == 0.0
  {
    var c := CosTheta(light, hit, sqrt);
    NonnegativeProduct(light.intensity, -c);
    assert light.intensity * (-c) == -(light.intensity * c);
  }

  /** Dividing by a product of positive numbers preserves the sign. */
  lemma QuotientSign(x: real, d: real, e: real)
    requires 0.0 < d && 0.0 < e
    ensures 0.0 < x / (d * e) <==> 0.0 < x
  {
    PositiveProduct(d, e);
    var q := d * e;
    assert x / q * q == x;
    if 0.0 < x / q {
      PositiveProduct(x / q, q);
    }
  }

  lemma QuotientCancels(x: real, d: real, e: real)
    requires 0.0 < d && 0.0 < e
    ensures x / (d * e) * (d * e) == x
  {
    PositiveProduct(d, e);
  }
}
