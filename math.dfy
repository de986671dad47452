/**
 * The integer parts of the `math` helpers: `math::clamp` and `invert`,
 * both instantiated at `int` (unbounded here; see README).
 */
module Math {

  /** `math::clamp`: tests the lower bound first, then the upper bound. */
  function Clamp(value: int, min: int, max: int): (r: int)
    ensures min <= max ==> min <= r <= max
    ensures min <= max ==> (r == value <==> min <= value <= max)
    ensures r == value || r == min || r == max
  {
    if value < min then min else if value > max then max else value
  }

  /** With inverted bounds the lower bound still wins for values below it;
      every other value is sent to `max`. */
  lemma ClampInvertedBounds(value: int, min: int, max: int)
    requires max < min
    ensures value < min ==> Clamp(value, min, max) == min
    ensures min <= value ==> Clamp(value, min, max) == max
  {
  }

  /** Clamping into non-empty bounds is idempotent. */
  lemma ClampIdempotent(value: int, min: int, max: int)
    requires min <= max
    ensures Clamp(Clamp(value, min, max), min, max) == Clamp(value, min, max)
  {
  }

  /** Clamping is monotone in the value. */
  lemma ClampMonotone(v: int, w: int, min: int, max: int)
    requires v <= w
    ensures Clamp(v, min, max) <= Clamp(w, min, max) || max < min
  {
  }

  /** `invert(From, OperatingValue)`: the difference `From - OperatingValue`.
      The second argument is only read (a function cannot change it). */
  function Invert(from: int, operatingValue: int): (r: int)
    ensures r + operatingValue == from
  {
    from - operatingValue
  }
}
