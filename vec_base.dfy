/**
 * `VecBase2<int>` (the `IVec2` instantiation): a two-component integer vector.
 * The value operators (comparisons, `+ - * /`, products, `clamp`, ...) are
 * functions over the datatype `Vec2`; the operators that change the vector in
 * place (`+=`, `-=`, `*=`, `/=`, `++`, `--`) are methods of the class `IVec2`.
 * Integers are unbounded: the model does not wrap on overflow.
 */
module VecBase {
  import Math

  datatype Vec2 = Vec2(x: int, y: int)

  function Abs(n: int): nat { if n < 0 then -n else n }

  // ---------------------------------------------------------------------------
  // Comparisons

  /** `operator==`: both components equal, i.e. the same vector. */
  function Equal(a: Vec2, b: Vec2): (r: bool)
    ensures r <==> a == b
  {
    a.x == b.x && a.y == b.y
  }

  /** `operator>`, `operator<`, `operator>=`, `operator<=`: the relation must
      hold on both components. */
  predicate Greater(a: Vec2, b: Vec2) { a.x > b.x && a.y > b.y }
  predicate Less(a: Vec2, b: Vec2) { a.x < b.x && a.y < b.y }
  predicate GreaterEq(a: Vec2, b: Vec2) { a.x >= b.x && a.y >= b.y }
  predicate LessEq(a: Vec2, b: Vec2) { a.x <= b.x && a.y <= b.y }

  /** `<` is a strict partial order and `>` is its converse. */
  lemma LessIsStrictOrder(a: Vec2, b: Vec2, c: Vec2)
    ensures !Less(a, a)
    ensures Less(a, b) ==> !Less(b, a)
    ensures Less(a, b) && Less(b, c) ==> Less(a, c)
    ensures Greater(a, b) <==> Less(b, a)
  {
  }

  /** `<=` is a partial order, `>=` its converse, and `<` implies `<=`. */
  lemma LessEqIsPartialOrder(a: Vec2, b: Vec2, c: Vec2)
    ensures LessEq(a, a)
    ensures LessEq(a, b) && LessEq(b, a) ==> a == b
    ensures LessEq(a, b) && LessEq(b, c) ==> LessEq(a, c)
    ensures GreaterEq(a, b) <==> LessEq(b, a)
    ensures Less(a, b) ==> LessEq(a, b) && !Equal(a, b)
  {
  }

  /** The orders are not total: (0, 1) and (1, 0) are incomparable, so
      `!(a < b)` does not give `a >= b`. */
  lemma OrdersAreNotTotal()
    ensures !LessEq(Vec2(0, 1), Vec2(1, 0)) && !LessEq(Vec2(1, 0), Vec2(0, 1))
    ensures !Less(Vec2(0, 1), Vec2(1, 0)) && !GreaterEq(Vec2(0, 1), Vec2(1, 0))
  {
  }

  // ---------------------------------------------------------------------------
  // Arithmetic on values

  /** `operator+` (vector) */
  function Add(a: Vec2, b: Vec2): Vec2 { Vec2(a.x + b.x, a.y + b.y) }

  /** `operator-` (vector): the inverse of `+`. */
  function Sub(a: Vec2, b: Vec2): (r: Vec2)
    ensures Add(r, b) == a
  {
    Vec2(a.x - b.x, a.y - b.y)
  }

  /** `operator*` (vector): component-wise product. */
  function Mul(a: Vec2, b: Vec2): Vec2 { Vec2(a.x * b.x, a.y * b.y) }

  /** `operator*` (scalar) */
  function Scale(a: Vec2, s: int): (r: Vec2)
    ensures r == Mul(a, Vec2(s, s))
  {
    Vec2(a.x * s, a.y * s)
  }

  /** `operator+` (scalar) */
  function AddScalar(a: Vec2, s: int): (r: Vec2)
    ensures r == Add(a, Vec2(s, s))
  {
    Vec2(a.x + s, a.y + s)
  }

  /** `operator-` (scalar) */
  function SubScalar(a: Vec2, s: int): (r: Vec2)
    ensures AddScalar(r, s) == a
  {
    Vec2(a.x - s, a.y - s)
  }

  /** Unary `operator-` */
  function Neg(a: Vec2): (r: Vec2)
    ensures Add(a, r) == Vec2(0, 0)
  {
    Vec2(-a.x, -a.y)
  }

  /** Addition is a commutative group operation with `Neg` as inverse. */
  lemma AddGroup(a: Vec2, b: Vec2, c: Vec2)
    ensures Add(a, b) == Add(b, a)
    ensures Add(Add(a, b), c) == Add(a, Add(b, c))
    ensures Add(a, Vec2(0, 0)) == a
    ensures Sub(Add(a, b), b) == a
    ensures Sub(a, b) == Add(a, Neg(b))
    ensures Neg(Neg(a)) == a
  {
  }

  /** Scalar multiplication distributes over addition and `-v == v * -1`. */
  lemma ScaleDistributes(a: Vec2, b: Vec2, s: int)
    ensures Scale(Add(a, b), s) == Add(Scale(a, s), Scale(b, s))
    ensures Scale(a, -1) == Neg(a)
    ensures Scale(a, 1) == a
  {
  }

  /** C++ `/` on `int`: the quotient truncated toward zero, so the remainder
      is smaller than the divisor and carries the sign of the dividend. */
  function TruncDiv(a: int, b: int): (q: int)
    requires b != 0
    ensures Abs(a - q * b) < Abs(b)
    ensures 0 <= a ==> 0 <= a - q * b
    ensures a <= 0 ==> a - q * b <= 0
  {
    if 0 <= a then a / b else -((-a) / b)
  }

  /** A multiple of `b` divides back exactly. */
  lemma TruncDivExact(m: int, b: int)
    requires b != 0
    ensures TruncDiv(m * b, b) == m
  {
    var q := TruncDiv(m * b, b);
    assert m * b - q * b == (m - q) * b;
    if m != q {
      AbsProductAtLeast(m - q, b);
    }
  }

  lemma AbsProductAtLeast(k: int, b: int)
    requires k != 0
    ensures Abs(k * b) >= Abs(b)
  {
    var kk: int, bb: int := Abs(k), Abs(b);
    assert kk * bb == (kk - 1) * bb + bb;
    if k < 0 && b < 0 {
      assert k * b == kk * bb;
    } else if k < 0 {
      assert k * b == -(kk * bb);
    } else if b < 0 {
      assert k * b == -(kk * bb);
    }
  }

  /** `operator/` (vector): component-wise truncating division. Division by
      a zero component is undefined in C++, so it is excluded. */
  function Div(a: Vec2, b: Vec2): (r: Vec2)
    requires b.x != 0 && b.y != 0
    ensures Abs(a.x - r.x * b.x) < Abs(b.x) && Abs(a.y - r.y * b.y) < Abs(b.y)
    ensures 0 <= a.x ==> 0 <= a.x - r.x * b.x
    ensures a.x <= 0 ==> a.x - r.x * b.x <= 0
    ensures 0 <= a.y ==> 0 <= a.y - r.y * b.y
    ensures a.y <= 0 ==> a.y - r.y * b.y <= 0
  {
    Vec2(TruncDiv(a.x, b.x), TruncDiv(a.y, b.y))
  }

  /** `operator/` (scalar) */
  function DivScalar(a: Vec2, s: int): (r: Vec2)
    requires s != 0
    ensures r == Div(a, Vec2(s, s))
  {
    Vec2(TruncDiv(a.x, s), TruncDiv(a.y, s))
  }

  /** Division undoes multiplication, component-wise and by a scalar. */
  lemma DivUndoesMul(a: Vec2, b: Vec2, s: int)
    requires b.x != 0 && b.y != 0 && s != 0
    ensures Div(Mul(a, b), b) == a
    ensures DivScalar(Scale(a, s), s) == a
  {
    TruncDivExact(a.x, b.x);
    TruncDivExact(a.y, b.y);
    TruncDivExact(a.x, s);
    TruncDivExact(a.y, s);
  }

  /** `operator^`: the two XOR expressions are evaluated and discarded, so the
      result is an unchanged copy of the left operand. */
  function Caret(a: Vec2, other: Vec2): (r: Vec2)
    ensures r == a
  {
    Vec2(a.x, a.y)
  }

  // ---------------------------------------------------------------------------
  // Products and derived quantities

  /** `DotProduct(v1, v2)` (the receiver is not used). */
  function DotProduct(v1: Vec2, v2: Vec2): int { v1.x * v2.x + v1.y * v2.y }

  /** `magnitudeSquared`: never negative, and zero only for the zero vector. */
  function MagnitudeSquared(a: Vec2): (r: int)
    ensures r >= 0
    ensures r == 0 <==> a == Vec2(0, 0)
  {
    SquareNonNegative(a.x);
    SquareNonNegative(a.y);
    a.x * a.x + a.y * a.y
  }

  lemma SquareNonNegative(n: int)
    ensures n * n >= 0
    ensures n * n == 0 <==> n == 0
  {
    if n < 0 { assert n * n == (-n) * (-n); }
  }

  /** `Perpendicular`: the vector turned a quarter turn counter-clockwise;
      orthogonal to the original and of the same length. */
  function Perpendicular(a: Vec2): (r: Vec2)
    ensures DotProduct(r, a) == 0
    ensures MagnitudeSquared(r) == MagnitudeSquared(a)
  {
    Vec2(-a.y, a.x)
  }

  /** The quarter turn is counter-clockwise: the cross product of a vector
      with its perpendicular is positive (its squared magnitude). */
  lemma PerpendicularIsCounterClockwise(a: Vec2)
    ensures CrossProduct(a, Perpendicular(a)) == MagnitudeSquared(a)
  {
  }

  /** `CrossProduct(v1, v2)`: the dot product with the first vector turned a
      quarter turn; hence anti-symmetric and zero on parallel vectors. */
  function CrossProduct(v1: Vec2, v2: Vec2): (r: int)
    ensures r == DotProduct(Perpendicular(v1), v2)
  {
    v1.x * v2.y - v1.y * v2.x
  }

  /** Dot product is symmetric, and a vector dotted with itself is its
      squared magnitude. */
  lemma DotProductProperties(a: Vec2, b: Vec2)
    ensures DotProduct(a, b) == DotProduct(b, a)
    ensures DotProduct(a, a) == MagnitudeSquared(a)
  {
  }

  /** Cross product is anti-symmetric and vanishes on a vector with itself. */
  lemma CrossProductProperties(a: Vec2, b: Vec2)
    ensures CrossProduct(a, b) == -CrossProduct(b, a)
    ensures CrossProduct(a, a) == 0
    ensures CrossProduct(a, b) == -DotProduct(Perpendicular(b), a)
  {
  }

  /** Turning twice is negation. */
  lemma PerpendicularTwice(a: Vec2)
    ensures Perpendicular(Perpendicular(a)) == Neg(a)
  {
  }

  /** `distanceSquared`: the squared magnitude of the difference, symmetric. */
  function DistanceSquared(a: Vec2, other: Vec2): (r: int)
    ensures r == MagnitudeSquared(Sub(other, a))
    ensures r >= 0 && (r == 0 <==> a == other)
  {
    var dx := other.x - a.x;
    var dy := other.y - a.y;
    assert Sub(other, a) == Vec2(dx, dy);
    dx * dx + dy * dy
  }

  lemma DistanceSquaredSymmetric(a: Vec2, b: Vec2)
    ensures DistanceSquared(a, b) == DistanceSquared(b, a)
  {
    assert (b.x - a.x) * (b.x - a.x) == (a.x - b.x) * (a.x - b.x);
    assert (b.y - a.y) * (b.y - a.y) == (a.y - b.y) * (a.y - b.y);
  }

  /** `isOrthogonal`: the dot product is zero. */
  function IsOrthogonal(a: Vec2, other: Vec2): (r: bool)
    ensures r <==> DotProduct(a, other) == 0
    ensures r ==> CrossProduct(a, other) * CrossProduct(a, other) == MagnitudeSquared(a) * MagnitudeSquared(other)
  {
    LagrangeIdentity(a, other);
    a.x * other.x + a.y * other.y == 0
  }

  /** The two-dimensional Lagrange identity: dot squared plus cross squared is
      the product of the squared magnitudes. */
  lemma LagrangeIdentity(a: Vec2, b: Vec2)
    ensures DotProduct(a, b) * DotProduct(a, b) + CrossProduct(a, b) * CrossProduct(a, b)
         == MagnitudeSquared(a) * MagnitudeSquared(b)
  {
    var p, q, s, t := a.x, a.y, b.x, b.y;
    SquareOfSum(p * s, q * t, 1);
    SquareOfSum(p * t, q * s, -1);
    ProductOfSums(p * p, q * q, s * s, t * t);
    Rearrange(p, p, s, s);
    Rearrange(q, q, t, t);
    Rearrange(p, p, t, t);
    Rearrange(q, q, s, s);
    Rearrange(p, q, s, t);
  }

  /** `(u + k v)^2 = u^2 + 2 k u v + k^2 v^2`, for `k` either 1 or -1. */
  lemma SquareOfSum(u: int, v: int, k: int)
    requires k == 1 || k == -1
    ensures (u + k * v) * (u + k * v) == u * u + 2 * k * (u * v) + v * v
  {
  }

  /** A product of two sums expands into four products. */
  lemma ProductOfSums(w: int, x: int, y: int, z: int)
    ensures (w + x) * (y + z) == w * y + w * z + x * y + x * z
  {
  }

  /** A product of four factors does not depend on how they are grouped. */
  lemma Rearrange(p: int, q: int, s: int, t: int)
    ensures (p * s) * (q * t) == (p * q) * (s * t)
    ensures (p * t) * (q * s) == (p * q) * (s * t)
  {
  }

  /** `clamp`: `math::clamp` applied per component. */
  function ClampVec(a: Vec2, minVal: Vec2, maxVal: Vec2): (r: Vec2)
    ensures r.x == Math.Clamp(a.x, minVal.x, maxVal.x) && r.y == Math.Clamp(a.y, minVal.y, maxVal.y)
    ensures LessEq(minVal, maxVal) ==> LessEq(minVal, r) && LessEq(r, maxVal)
    ensures LessEq(minVal, maxVal) ==> (r == a <==> LessEq(minVal, a) && LessEq(a, maxVal))
  {
    Vec2(Math.Clamp(a.x, minVal.x, maxVal.x), Math.Clamp(a.y, minVal.y, maxVal.y))
  }

  // ---------------------------------------------------------------------------
  // In-place operators

  /** A `VecBase2<int>` object whose fields the compound operators update. */
  class IVec2 {
    var x: int
    var y: int

    /** The current value of the vector. */
    function Value(): Vec2
      reads this
    {
      Vec2(x, y)
    }

    constructor (x0: int, y0: int)
      ensures Value() == Vec2(x0, y0)
    {
      x, y := x0, y0;
    }

    /** `operator+=`: updates both fields and returns a copy of the result. */
    method AddAssign(other: Vec2) returns (r: Vec2)
      modifies this
      ensures Value() == Add(old(Value()), other)
      ensures r == Value()
    {
      x := x + other.x;
      y := y + other.y;
      r := Vec2(x, y);
    }

    /** `operator-=` */
    method SubAssign(other: Vec2) returns (r: Vec2)
      modifies this
      ensures Value() == Sub(old(Value()), other)
      ensures r == Value()
    {
      x := x - other.x;
      y := y - other.y;
      r := Vec2(x, y);
    }

    /** `operator*=` (vector) */
    method MulAssign(other: Vec2) returns (r: Vec2)
      modifies this
      ensures Value() == Mul(old(Value()), other)
      ensures r == Value()
    {
      x := x * other.x;
      y := y * other.y;
      r := Vec2(x, y);
    }

    /** `operator*=` (scalar): returns the object itself. */
    method ScaleAssign(s: int) returns (r: IVec2)
      modifies this
      ensures Value() == Scale(old(Value()), s)
      ensures r == this
    {
      x := x * s;
      y := y * s;
      r := this;
    }

    /** `operator/=` (vector) */
    method DivAssign(other: Vec2) returns (r: Vec2)
      requires other.x != 0 && other.y != 0
      modifies this
      ensures Value() == Div(old(Value()), other)
      ensures r == Value()
    {
      x := TruncDiv(x, other.x);
      y := TruncDiv(y, other.y);
      r := Vec2(x, y);
    }

    /** Prefix `operator++`: both fields incremented, the object returned. */
    method Increment() returns (r: IVec2)
      modifies this
      ensures Value() == AddScalar(old(Value()), 1)
      ensures r == this
    {
      x := x + 1;
      y := y + 1;
      r := this;
    }

    /** Postfix `operator++`: returns the old value. */
    method PostIncrement() returns (r: Vec2)
      modifies this
      ensures r == old(Value())
      ensures Value() == AddScalar(r, 1)
    {
      r := Vec2(x, y);
      var _ := Increment();
    }

    /** Prefix `operator--` */
    method Decrement() returns (r: IVec2)
      modifies this
      ensures Value() == SubScalar(old(Value()), 1)
      ensures r == this
    {
      x := x - 1;
      y := y - 1;
      r := this;
    }

    /** Postfix `operator--`: returns the old value. */
    method PostDecrement() returns (r: Vec2)
      modifies this
      ensures r == old(Value())
      ensures Value() == SubScalar(r, 1)
    {
      r := Vec2(x, y);
      var _ := Decrement();
    }
  }
}
