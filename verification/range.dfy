/** `src/range.rs`: a closed interval of reals stored as its lower end and its
    width. The pseudo-random generator behind `get_random` is outside the
    model: the factor it draws is a parameter. */
module Ranges {

  datatype Range = Range(min: real, diff: real)

  /** `Range::new`: keeps the lower end and the width `max - min`. */
  function NewRange(min: real, max: real): (r: Range)
    ensures GetMin(r) == min && GetMax(r) == max
  {
    Range(min, max - min)
  }

  function GetMin(r: Range): real {
    r.min
  }

  function GetMax(r: Range): real {
    r.min + r.diff
  }

  /** A range built from `min <= max` has a non-negative width. */
  predicate Ordered(r: Range) {
    r.diff >= 0.0
  }

  /** `get_average`: the midpoint of the two ends. */
  function GetAverage(r: Range): (a: real)
    ensures a - GetMin(r) == GetMax(r) - a
    ensures Ordered(r) ==> GetMin(r) <= a <= GetMax(r)
  {
    (r.min + r.min + r.diff) * 0.5
  }

  /** `get_random`, with the generator's factor passed in. */
  function GetRandom(r: Range, factor: real): (x: real)
    ensures Ordered(r) && 0.0 <= factor <= 1.0 ==> GetMin(r) <= x <= GetMax(r)
  {
    ProductBounds(factor, r.diff);
    r.min + factor * r.diff
  }

  lemma ProductBounds(f: real, d: real)
    ensures d >= 0.0 && 0.0 <= f <= 1.0 ==> 0.0 <= f * d <= d
  {
    if d >= 0.0 && 0.0 <= f <= 1.0 {
      assert f * d <= 1.0 * d;
    }
  }

  /** `0.0_f32.max(1.0_f32.min(t))`. */
  function Clamp01(t: real): (c: real)
    ensures 0.0 <= c <= 1.0
    ensures 0.0 <= t <= 1.0 ==> c == t
    ensures t < 0.0 ==> c == 0.0
    ensures t > 1.0 ==> c == 1.0
  {
    var upper := if 1.0 <= t then 1.0 else t;
    if 0.0 >= upper then 0.0 else upper
  }

  /** `lerp`: interpolates between the two ends with the factor clamped to
      [0, 1], so the result never leaves the range. */
  function Lerp(r: Range, t: real): (x: real)
    ensures Ordered(r) ==> GetMin(r) <= x <= GetMax(r)
    ensures t <= 0.0 ==> x == GetMin(r)
    ensures t >= 1.0 ==> x == GetMax(r)
  {
    var c := Clamp01(t);
    ProductBounds(c, r.diff);
    assert (1.0 - c) * r.min + c * (r.min + r.diff) == r.min + c * r.diff;
    (1.0 - c) * r.min + c * (r.min + r.diff)
  }

  /** The interpolation is the random draw with the clamped factor: both walk
      the same segment from the lower end. */
  lemma LerpIsRandomAtClampedFactor(r: Range, t: real)
    ensures Lerp(r, t) == GetRandom(r, Clamp01(t))
  {
    var c := Clamp01(t);
    assert (1.0 - c) * r.min + c * (r.min + r.diff) == r.min + c * r.diff;
  }

  /** On an ordered range the interpolation never decreases as the factor
      grows. */
  lemma {:induction false} LerpMonotone(r: Range, s: real, t: real)
    requires Ordered(r) && s <= t
    ensures Lerp(r, s) <= Lerp(r, t)
  {
    LerpIsRandomAtClampedFactor(r, s);
    LerpIsRandomAtClampedFactor(r, t);
    var cs, ct := Clamp01(s), Clamp01(t);
    assert cs <= ct;
    ProductBounds(ct - cs, r.diff);
    assert ct * r.diff - cs * r.diff == (ct - cs) * r.diff;
  }
}
