/** The value-type vectors of the math kernel: `Vector2`, `Vector3`, `Vector4`.
    Components are C# `float`s; they are modelled as exact reals, so rounding, overflow to
    infinity and NaN are not represented. Operations that need a square root (magnitude,
    distance, normalisation, angle) are not part of this module. */
module Vectors {

  datatype Vector2 = Vector2(x: real, y: real)
  {
    /** `lhs + rhs` */
    function Add(rhs: Vector2): Vector2 { Vector2(x + rhs.x, y + rhs.y) }

    /** `lhs - rhs`: adding `rhs` back gives `lhs`. */
    function Sub(rhs: Vector2): (r: Vector2)
      ensures r.Add(rhs) == this
    {
      Vector2(x - rhs.x, y - rhs.y)
    }

    /** `lhs * s`: the same vector as the scalar-first `s * lhs`. */
    function Times(s: real): (r: Vector2)
      ensures r == ScalarTimes(s, this)
    {
      Vector2(x * s, y * s)
    }

    /** `s * rhs`, the scalar-first overload */
    static function ScalarTimes(s: real, v: Vector2): Vector2 { Vector2(s * v.x, s * v.y) }

    function DotProduct(rhs: Vector2): real { x * rhs.x + y * rhs.y }

    /** The squared length: the vector's dot product with itself, never negative. */
    function MagnitudeSqr(): (r: real)
      ensures r >= 0.0
      ensures r == DotProduct(this)
    {
      x * x + y * y
    }

    /** The right-facing perpendicular `(-y, x)`: orthogonal to this vector and as long, and
        a quarter turn counter-clockwise from it (the 2D cross product `this x r` is the
        squared length, never negative). */
    function GetPerpendicular(): (r: Vector2)
      ensures r.DotProduct(this) == 0.0
      ensures r.MagnitudeSqr() == MagnitudeSqr()
      ensures x * r.y - y * r.x == MagnitudeSqr()
    {
      Vector2(-y, x)
    }

    /** `GetPerpendicular(isFacingLeft)`: the left-facing perpendicular is the right-facing one reversed. */
    function GetPerpendicularFacing(isFacingLeft: bool): (r: Vector2)
      ensures r.DotProduct(this) == 0.0
      ensures isFacingLeft ==> r == GetPerpendicular().Times(-1.0)
      ensures !isFacingLeft ==> r == GetPerpendicular()
    {
      if isFacingLeft then Vector2(y, -x) else GetPerpendicular()
    }
  }

  datatype Vector3 = Vector3(x: real, y: real, z: real)
  {
    /** `lhs + rhs` */
    function Add(rhs: Vector3): Vector3 { Vector3(x + rhs.x, y + rhs.y, z + rhs.z) }

    /** `lhs - rhs`: adding `rhs` back gives `lhs`. */
    function Sub(rhs: Vector3): (r: Vector3)
      ensures r.Add(rhs) == this
    {
      Vector3(x - rhs.x, y - rhs.y, z - rhs.z)
    }

    /** `lhs * s`: the same vector as the scalar-first `s * lhs`. */
    function Times(s: real): (r: Vector3)
      ensures r == ScalarTimes(s, this)
    {
      Vector3(x * s, y * s, z * s)
    }

    /** `s * rhs`, the scalar-first overload */
    static function ScalarTimes(s: real, v: Vector3): Vector3 { Vector3(s * v.x, s * v.y, s * v.z) }

    function DotProduct(rhs: Vector3): real { x * rhs.x + y * rhs.y + z * rhs.z }

    /** The squared length: the vector's dot product with itself, never negative. */
    function MagnitudeSqr(): (r: real)
      ensures r >= 0.0
      ensures r == DotProduct(this)
    {
      x * x + y * y + z * z
    }

    /** The cross product is orthogonal to both of its operands. */
    function CrossProduct(rhs: Vector3): (r: Vector3)
      ensures DotProduct(r) == 0.0
      ensures rhs.DotProduct(r) == 0.0
    {
      Vector3(y * rhs.z - z * rhs.y, z * rhs.x - x * rhs.z, x * rhs.y - y * rhs.x)
    }
  }

  datatype Vector4 = Vector4(x: real, y: real, z: real, w: real)
  {
    /** `lhs + rhs` */
    function Add(rhs: Vector4): Vector4 { Vector4(x + rhs.x, y + rhs.y, z + rhs.z, w + rhs.w) }

    /** `lhs - rhs`: adding `rhs` back gives `lhs`. */
    function Sub(rhs: Vector4): (r: Vector4)
      ensures r.Add(rhs) == this
    {
      Vector4(x - rhs.x, y - rhs.y, z - rhs.z, w - rhs.w)
    }

    /** `lhs * s`: the same vector as the scalar-first `s * lhs`. */
    function Times(s: real): (r: Vector4)
      ensures r == ScalarTimes(s, this)
    {
      Vector4(x * s, y * s, z * s, w * s)
    }

    /** `s * rhs`, the scalar-first overload */
    static function ScalarTimes(s: real, v: Vector4): Vector4 { Vector4(s * v.x, s * v.y, s * v.z, s * v.w) }

    function Dot(rhs: Vector4): real { x * rhs.x + y * rhs.y + z * rhs.z + w * rhs.w }

    /** `Cross` ignores both `w` components and returns `w == 0`: it is the three-component
        cross product of the `xyz` parts. */
    function Cross(rhs: Vector4): (r: Vector4)
      ensures r.w == 0.0
      ensures Vector3(r.x, r.y, r.z) == Vector3(x, y, z).CrossProduct(Vector3(rhs.x, rhs.y, rhs.z))
      ensures Dot(r) == 0.0 && rhs.Dot(r) == 0.0
    {
      Vector4(y * rhs.z - z * rhs.y, z * rhs.x - x * rhs.z, x * rhs.y - y * rhs.x, 0.0)
    }
  }

  /** Subtracting `b` undoes adding `b`, for each vector type (`Sub` states the other order). */
  lemma AddSubRoundTrip(a2: Vector2, b2: Vector2, a3: Vector3, b3: Vector3, a4: Vector4, b4: Vector4)
    ensures a2.Add(b2).Sub(b2) == a2
    ensures a3.Add(b3).Sub(b3) == a3
    ensures a4.Add(b4).Sub(b4) == a4
  {
  }

  /** The dot product is symmetric, for each vector type. */
  lemma DotSymmetric(a2: Vector2, b2: Vector2, a3: Vector3, b3: Vector3, a4: Vector4, b4: Vector4)
    ensures a2.DotProduct(b2) == b2.DotProduct(a2)
    ensures a3.DotProduct(b3) == b3.DotProduct(a3)
    ensures a4.Dot(b4) == b4.Dot(a4)
  {
  }

  /** The cross product is anti-commutative. */
  lemma CrossAntiCommutes(a: Vector3, b: Vector3)
    ensures a.CrossProduct(b) == b.CrossProduct(a).Times(-1.0)
  {
  }

  /** Cauchy–Schwarz: the squared dot product is at most the product of the squared lengths. */
  lemma CauchySchwarz(u: Vector3, v: Vector3)
    ensures u.DotProduct(v) * u.DotProduct(v) <= u.MagnitudeSqr() * v.MagnitudeSqr()
  {
    var c := u.CrossProduct(v);
    assert u.MagnitudeSqr() * v.MagnitudeSqr() == u.DotProduct(v) * u.DotProduct(v) + c.x * c.x + c.y * c.y + c.z * c.z;
  }

  /** The triangle inequality, squared: lengths of at most `r1` and `r2` add to a length of
      at most `r1 + r2`. */
  lemma TriangleSquared(u: Vector3, v: Vector3, r1: real, r2: real)
    requires r1 >= 0.0 && r2 >= 0.0
    requires u.MagnitudeSqr() <= r1 * r1 && v.MagnitudeSqr() <= r2 * r2
    ensures u.Add(v).MagnitudeSqr() <= (r1 + r2) * (r1 + r2)
  {
    CauchySchwarz(u, v);
    var d, a, b := u.DotProduct(v), u.MagnitudeSqr(), v.MagnitudeSqr();
    assert u.Add(v).MagnitudeSqr() == a + 2.0 * d + b;
    ProductBound(d, a, b, r1, r2);
  }

  /** Real arithmetic behind `TriangleSquared`: from `d * d <= a * b`, `a <= r1 * r1` and
      `b <= r2 * r2` with non-negative radii, `d <= r1 * r2`. */
  lemma ProductBound(d: real, a: real, b: real, r1: real, r2: real)
    requires r1 >= 0.0 && r2 >= 0.0 && a >= 0.0 && b >= 0.0
    requires d * d <= a * b && a <= r1 * r1 && b <= r2 * r2
    ensures d <= r1 * r2
  {
    var k := r1 * r2;
    assert a * b <= (r1 * r1) * b;
    assert (r1 * r1) * b <= (r1 * r1) * (r2 * r2);
    assert (r1 * r1) * (r2 * r2) == k * k;
    if d > k {
      SquareGrows(k, d);
    }
  }

  /** Squaring is increasing on the non-negative reals. */
  lemma SquareGrows(k: real, d: real)
    requires 0.0 <= k < d
    ensures k * k < d * d
  {
    var e := d - k;
    assert d * d == k * k + e * (d + k);
    assert e * (d + k) > 0.0;
  }

  /** Scaling a vector by `t` scales its squared length by `t * t`. */
  lemma ScaledMagnitude(v: Vector3, t: real)
    ensures v.Times(t).MagnitudeSqr() == t * t * v.MagnitudeSqr()
  {
  }
}
