/** The value-type matrices of the math kernel: `Matrix2`, `Matrix3`, `Matrix4`.

    Storage is column-major: a matrix times a vector is `m1*x + m4*y + m7*z` on the first
    row of a `Matrix3`, so `(m1, m2, m3)` is its first column and `(m7, m8)` its translation.
    The C# types are structs, so a mutating builder such as `m.SetTranslation(x, y)` replaces
    the value held in `m`; each builder is modelled as a function from the struct before the
    call to the struct after it. Components are exact reals (no rounding). Builders that need
    sine and cosine take the two values as parameters. */
module Matrices {
  import opened Vectors

  // ---------------------------------------------------------------------------------------
  // Matrix2

  /** Columns `(m1, m2)` and `(m3, m4)`. */
  datatype Matrix2 = Matrix2(m1: real, m2: real, m3: real, m4: real)
  {
    /** The C# constructor `new Matrix2(M1, M2, M3, M4)` stores `M2` in `m3` and `M3` in `m2`:
        its arguments are read row by row. */
    static function Create(M1: real, M2: real, M3: real, M4: real): (r: Matrix2)
      ensures forall v: Vector2 {:trigger r.Apply(v)} ::
        r.Apply(v) == Vector2(M1 * v.x + M2 * v.y, M3 * v.x + M4 * v.y)
    {
      Matrix2(M1, M3, M2, M4)
    }

    /** `lhs * rhs` for a `Vector2` */
    function Apply(v: Vector2): Vector2
    {
      Vector2(m1 * v.x + m3 * v.y, m2 * v.x + m4 * v.y)
    }

    function Column1(): Vector2 { Vector2(m1, m2) }
    function Column2(): Vector2 { Vector2(m3, m4) }

    /** `GetTransposed` passes the fields back through the swapping constructor, so it does
        transpose: the rows of the result are the columns of this matrix. */
    function GetTransposed(): (r: Matrix2)
      ensures forall v: Vector2 {:trigger r.Apply(v)} ::
        r.Apply(v) == Vector2(Vector2(m1, m2).DotProduct(v), Vector2(m3, m4).DotProduct(v))
    {
      Create(m1, m2, m3, m4)
    }

    /** `lhs * rhs` as written has two defects. Its first column adds `lhs.m2 + rhs.m3` and
        `lhs.m4 + rhs.m3` where products are due; and because the result goes through the
        swapping constructor, its terms pair the cells of the transposed factors. Even with
        products in place of the two sums it would be `lhsᵀ rhsᵀ`, not `lhs rhs`: the result
        is `lhsᵀ rhsᵀ` (the transposes written out cell by cell, as `GetTransposed` returns them)
        exactly when each of the two sums happens to equal its product. */
    function Mul(rhs: Matrix2): (r: Matrix2)
      ensures r == Matrix2(m1, m3, m2, m4).Product(Matrix2(rhs.m1, rhs.m3, rhs.m2, rhs.m4))
          <==> m2 + rhs.m3 == m2 * rhs.m3 && m4 + rhs.m3 == m4 * rhs.m3
    {
      Create(m1 * rhs.m1 + m2 + rhs.m3, m1 * rhs.m2 + m2 * rhs.m4,
             m3 * rhs.m1 + m4 + rhs.m3, m3 * rhs.m2 + m4 * rhs.m4)
    }

    /** The matrix product `lhs * rhs` in column-major storage, as `Matrix3` and `Matrix4`
        compute it: row `i` of the left factor against column `j` of the right one. Column `j`
        of the product is the left factor applied to column `j` of the right one. */
    function Product(rhs: Matrix2): (r: Matrix2)
      ensures r.Column1() == Apply(rhs.Column1()) && r.Column2() == Apply(rhs.Column2())
    {
      Create(m1 * rhs.m1 + m3 * rhs.m2, m1 * rhs.m3 + m3 * rhs.m4,
             m2 * rhs.m1 + m4 * rhs.m2, m2 * rhs.m3 + m4 * rhs.m4)
    }

    /** `SetScaled(x, y)` overwrites all four cells with `diag(x, y)`. */
    function SetScaled(x: real, y: real): (r: Matrix2)
      ensures forall v: Vector2 {:trigger r.Apply(v)} :: r.Apply(v) == Vector2(x * v.x, y * v.y)
    {
      Matrix2(x, 0.0, 0.0, y)
    }

    /** `Scale(x, y)`: `this * diag(x, y)` with the product as written. */
    function Scale(x: real, y: real): Matrix2
    {
      Mul(SetScaled(x, y))
    }
  }

  const Identity2: Matrix2 := Matrix2.Create(1.0, 0.0, 0.0, 1.0)

  /** Transposing swaps the two off-diagonal cells, so transposing twice gives back the matrix. */
  lemma Matrix2TransposeInvolution(m: Matrix2)
    ensures m.GetTransposed().GetTransposed() == m
    ensures m.GetTransposed() == Matrix2(m.m1, m.m3, m.m2, m.m4)
  {
  }

  /** `Matrix2 *` is not matrix multiplication: the identity squared is not the identity, and
      applying the product is not applying the factors in turn. */
  lemma Matrix2MulNotComposition()
    ensures Identity2.Mul(Identity2) == Matrix2(1.0, 1.0, 0.0, 1.0)
    ensures Identity2.Mul(Identity2).Apply(Vector2(1.0, 0.0)) == Vector2(1.0, 1.0)
    ensures Identity2.Apply(Identity2.Apply(Vector2(1.0, 0.0))) == Vector2(1.0, 0.0)
  {
    assert Identity2 == Matrix2(1.0, 0.0, 0.0, 1.0);
  }

  /** The transposed pairing alone already departs from the product: with
      `a = Matrix2(0.0, 1.0, -1.0, 0.0)` and `b = Matrix2(1.0, 0.0, 1.0, 1.0)`, the first cell
      of `aᵀ bᵀ` differs from that of `a b`. */
  lemma Matrix2TransposedPairing()
    ensures Matrix2(0.0, 1.0, -1.0, 0.0).GetTransposed().Product(Matrix2(1.0, 0.0, 1.0, 1.0).GetTransposed()).m1
         != Matrix2(0.0, 1.0, -1.0, 0.0).Product(Matrix2(1.0, 0.0, 1.0, 1.0)).m1
  {
  }

  /** Because of the same defect, `Scale` on the identity yields a shear, not `diag(x, y)`. */
  lemma Matrix2ScaleShears()
    ensures Identity2.Scale(2.0, 3.0) == Matrix2(2.0, 1.0, 0.0, 3.0)
    ensures Identity2.Scale(2.0, 3.0) != Identity2.SetScaled(2.0, 3.0)
  {
  }

  /** Applying the corrected product is applying its factors in turn, right factor first. */
  lemma Matrix2ProductApply(a: Matrix2, b: Matrix2, v: Vector2)
    ensures a.Product(b).Apply(v) == a.Apply(b.Apply(v))
  {
    Distribute2(a.m1 * b.m1, a.m3 * b.m2, v.x);
    Distribute2(a.m1 * b.m3, a.m3 * b.m4, v.y);
    Distribute2(a.m2 * b.m1, a.m4 * b.m2, v.x);
    Distribute2(a.m2 * b.m3, a.m4 * b.m4, v.y);
    Distribute2(b.m1 * v.x, b.m3 * v.y, a.m1);
    Distribute2(b.m2 * v.x, b.m4 * v.y, a.m3);
    Distribute2(b.m1 * v.x, b.m3 * v.y, a.m2);
    Distribute2(b.m2 * v.x, b.m4 * v.y, a.m4);
  }

  /** The corrected product has `identity` as a two-sided unit and is associative. */
  lemma {:induction false} Matrix2ProductLaws(a: Matrix2, b: Matrix2, c: Matrix2)
    ensures Identity2.Product(a) == a && a.Product(Identity2) == a
    ensures a.Product(b).Product(c) == a.Product(b.Product(c))
  {
    assert Identity2 == Matrix2(1.0, 0.0, 0.0, 1.0);
    var e1, e2 := Vector2(1.0, 0.0), Vector2(0.0, 1.0);
    forall v: Vector2 | v in {e1, e2}
      ensures a.Product(b).Product(c).Apply(v) == a.Product(b.Product(c)).Apply(v)
    {
      Matrix2ProductApply(a.Product(b), c, v);
      Matrix2ProductApply(a, b, c.Apply(v));
      Matrix2ProductApply(b, c, v);
      Matrix2ProductApply(a, b.Product(c), v);
    }
    var l, r := a.Product(b).Product(c), a.Product(b.Product(c));
    assert l.Apply(e1) == r.Apply(e1) && l.Apply(e2) == r.Apply(e2);
  }

  // ---------------------------------------------------------------------------------------
  // Matrix3

  /** Columns `(m1, m2, m3)`, `(m4, m5, m6)`, `(m7, m8, m9)`; the C# constructor stores its
      nine arguments in this order. */
  datatype Matrix3 = Matrix3(m1: real, m2: real, m3: real,
                             m4: real, m5: real, m6: real,
                             m7: real, m8: real, m9: real)
  {
    /** `lhs * rhs` for a `Vector3` */
    function Apply(v: Vector3): Vector3
    {
      Vector3(m1 * v.x + m4 * v.y + m7 * v.z,
              m2 * v.x + m5 * v.y + m8 * v.z,
              m3 * v.x + m6 * v.y + m9 * v.z)
    }

    function Column1(): Vector3 { Vector3(m1, m2, m3) }
    function Column2(): Vector3 { Vector3(m4, m5, m6) }
    function Column3(): Vector3 { Vector3(m7, m8, m9) }

    /** `GetTransposed`: the rows of the result are the columns of this matrix. */
    function GetTransposed(): (r: Matrix3)
      ensures forall v: Vector3 {:trigger r.Apply(v)} ::
        r.Apply(v) == Vector3(Column1().DotProduct(v), Column2().DotProduct(v), Column3().DotProduct(v))
    {
      Matrix3(m1, m4, m7,
              m2, m5, m8,
              m3, m6, m9)
    }

    /** `lhs * rhs`: the row-major product, transposed back into column-major storage. */
    function Mul(rhs: Matrix3): Matrix3
    {
      Matrix3(m1 * rhs.m1 + m4 * rhs.m2 + m7 * rhs.m3,
              m1 * rhs.m4 + m4 * rhs.m5 + m7 * rhs.m6,
              m1 * rhs.m7 + m4 * rhs.m8 + m7 * rhs.m9,

              m2 * rhs.m1 + m5 * rhs.m2 + m8 * rhs.m3,
              m2 * rhs.m4 + m5 * rhs.m5 + m8 * rhs.m6,
              m2 * rhs.m7 + m5 * rhs.m8 + m8 * rhs.m9,

              m3 * rhs.m1 + m6 * rhs.m2 + m9 * rhs.m3,
              m3 * rhs.m4 + m6 * rhs.m5 + m9 * rhs.m6,
              m3 * rhs.m7 + m6 * rhs.m8 + m9 * rhs.m9).GetTransposed()
    }

    /** `SetScaled(x, y, z)` overwrites all nine cells with `diag(x, y, z)`, so any
        translation is discarded. */
    function SetScaled(x: real, y: real, z: real): (r: Matrix3)
      ensures forall v: Vector3 {:trigger r.Apply(v)} :: r.Apply(v) == Vector3(x * v.x, y * v.y, z * v.z)
      ensures r.m7 == 0.0 && r.m8 == 0.0
    {
      Matrix3(x, 0.0, 0.0,
              0.0, y, 0.0,
              0.0, 0.0, z)
    }

    /** `Scale(x, y, z)` sets this to `this * diag(x, y, z)`: column j is multiplied by the
        j-th factor, and a vector is scaled before this matrix is applied. */
    function Scale(x: real, y: real, z: real): (r: Matrix3)
      ensures r.Column1() == Column1().Times(x)
      ensures r.Column2() == Column2().Times(y)
      ensures r.Column3() == Column3().Times(z)
      ensures forall v: Vector3 {:trigger r.Apply(v)} :: r.Apply(v) == Apply(Vector3(x * v.x, y * v.y, z * v.z))
    {
      Matrix3MulApplyAll(this, SetScaled(x, y, z));
      Mul(SetScaled(x, y, z))
    }

    /** `SetRotateZ(radians)` with `c = cos(radians)` and `s = sin(radians)`: overwrites all
        nine cells with a rotation about z. */
    function SetRotateZ(c: real, s: real): (r: Matrix3)
      ensures forall v: Vector3 {:trigger r.Apply(v)} ::
        r.Apply(v) == Vector3(c * v.x - s * v.y, s * v.x + c * v.y, v.z)
    {
      Matrix3(c, s, 0.0,
              -s, c, 0.0,
              0.0, 0.0, 1.0)
    }

    /** `RotateZ(radians)` sets this to `this * rotation`: a vector is rotated before this
        matrix is applied. */
    function RotateZ(c: real, s: real): (r: Matrix3)
      ensures forall v: Vector3 {:trigger r.Apply(v)} :: r.Apply(v) == Apply(SetRotateZ(c, s).Apply(v))
    {
      Matrix3MulApplyAll(this, SetRotateZ(c, s));
      Mul(SetRotateZ(c, s))
    }

    /** `SetTranslation(x, y)` writes `m7 = x`, `m8 = y`, `m9 = 1` and leaves the other six
        cells alone: the homogeneous origin is mapped to `(x, y, 1)`. */
    function SetTranslation(x: real, y: real): (r: Matrix3)
      ensures r.Apply(Vector3(0.0, 0.0, 1.0)) == Vector3(x, y, 1.0)
      ensures r.Column1() == Column1() && r.Column2() == Column2()
    {
      this.(m7 := x, m8 := y, m9 := 1.0)
    }

    /** `Translate(x, y)` adds `x` to `m7` and `y` to `m8` and changes nothing else: the image
        of the homogeneous origin moves by `(x, y, 0)`. */
    function Translate(x: real, y: real): (r: Matrix3)
      ensures r.Apply(Vector3(0.0, 0.0, 1.0)) == Apply(Vector3(0.0, 0.0, 1.0)).Add(Vector3(x, y, 0.0))
      ensures r.Column1() == Column1() && r.Column2() == Column2() && r.m9 == m9
    {
      this.(m7 := m7 + x, m8 := m8 + y)
    }

    /** The bottom row is `(0, 0, 1)`: the matrix is a 2D affine transform. */
    predicate IsAffine()
    {
      m3 == 0.0 && m6 == 0.0 && m9 == 1.0
    }
  }

  const Identity3: Matrix3 := Matrix3(1.0, 0.0, 0.0, 0.0, 1.0, 0.0, 0.0, 0.0, 1.0)

  /** `new Matrix3()`: the default struct, all nine cells zero. */
  const Zero3: Matrix3 := Matrix3(0.0, 0.0, 0.0, 0.0, 0.0, 0.0, 0.0, 0.0, 0.0)

  /** Multiplication distributes over a sum of two, three and four terms, on either side. */
  lemma Distribute2(p1: real, p2: real, x: real)
    ensures (p1 + p2) * x == p1 * x + p2 * x
    ensures x * (p1 + p2) == x * p1 + x * p2
  {
  }

  lemma Distribute3(p1: real, p2: real, p3: real, x: real)
    ensures (p1 + p2 + p3) * x == p1 * x + p2 * x + p3 * x
    ensures x * (p1 + p2 + p3) == x * p1 + x * p2 + x * p3
  {
  }

  lemma Distribute4(p1: real, p2: real, p3: real, p4: real, x: real)
    ensures (p1 + p2 + p3 + p4) * x == p1 * x + p2 * x + p3 * x + p4 * x
    ensures x * (p1 + p2 + p3 + p4) == x * p1 + x * p2 + x * p3 + x * p4
  {
  }

  /** A product of three factors, regrouped. */
  lemma Regroup(a: real, b: real, x: real)
    ensures (b * a) * x == a * (b * x)
  {
  }

  /** One row of a three-by-three product applied to a vector, regrouped: `a1..a3` are the
      row of the left factor and `b1..b9` the right factor, column by column. */
  lemma Row3Regroup(a1: real, a2: real, a3: real,
                    b1: real, b2: real, b3: real, b4: real, b5: real, b6: real, b7: real, b8: real, b9: real,
                    x: real, y: real, z: real)
    ensures (a1 * b1 + a2 * b2 + a3 * b3) * x + (a1 * b4 + a2 * b5 + a3 * b6) * y + (a1 * b7 + a2 * b8 + a3 * b9) * z
         == a1 * (b1 * x + b4 * y + b7 * z) + a2 * (b2 * x + b5 * y + b8 * z) + a3 * (b3 * x + b6 * y + b9 * z)
  {
    Distribute3(a1 * b1, a2 * b2, a3 * b3, x);
    Distribute3(a1 * b4, a2 * b5, a3 * b6, y);
    Distribute3(a1 * b7, a2 * b8, a3 * b9, z);
    Distribute3(b1 * x, b4 * y, b7 * z, a1);
    Distribute3(b2 * x, b5 * y, b8 * z, a2);
    Distribute3(b3 * x, b6 * y, b9 * z, a3);
  }

  /** Applying a product is applying its factors in turn, right factor first. */
  lemma Matrix3MulApply(a: Matrix3, b: Matrix3, v: Vector3)
    ensures a.Mul(b).Apply(v) == a.Apply(b.Apply(v))
  {
    Row3Regroup(a.m1, a.m4, a.m7, b.m1, b.m2, b.m3, b.m4, b.m5, b.m6, b.m7, b.m8, b.m9, v.x, v.y, v.z);
    Row3Regroup(a.m2, a.m5, a.m8, b.m1, b.m2, b.m3, b.m4, b.m5, b.m6, b.m7, b.m8, b.m9, v.x, v.y, v.z);
    Row3Regroup(a.m3, a.m6, a.m9, b.m1, b.m2, b.m3, b.m4, b.m5, b.m6, b.m7, b.m8, b.m9, v.x, v.y, v.z);
  }

  /** `Matrix3MulApply` for every vector at once. */
  lemma Matrix3MulApplyAll(a: Matrix3, b: Matrix3)
    ensures forall v: Vector3 {:trigger a.Mul(b).Apply(v)} :: a.Mul(b).Apply(v) == a.Apply(b.Apply(v))
  {
    forall v: Vector3 ensures a.Mul(b).Apply(v) == a.Apply(b.Apply(v)) {
      Matrix3MulApply(a, b, v);
    }
  }


  /** A matrix is determined by where it sends the three unit vectors: its columns. */
  lemma Matrix3Extensional(a: Matrix3, b: Matrix3)
    requires a.Apply(Vector3(1.0, 0.0, 0.0)) == b.Apply(Vector3(1.0, 0.0, 0.0))
    requires a.Apply(Vector3(0.0, 1.0, 0.0)) == b.Apply(Vector3(0.0, 1.0, 0.0))
    requires a.Apply(Vector3(0.0, 0.0, 1.0)) == b.Apply(Vector3(0.0, 0.0, 1.0))
    ensures a == b
  {
  }

  /** `identity` is a two-sided unit of the product. */
  lemma Matrix3IdentityUnit(a: Matrix3)
    ensures Identity3.Mul(a) == a
    ensures a.Mul(Identity3) == a
  {
  }

  /** The product is associative. */
  lemma {:induction false} Matrix3MulAssoc(a: Matrix3, b: Matrix3, c: Matrix3)
    ensures a.Mul(b).Mul(c) == a.Mul(b.Mul(c))
  {
    var e1, e2, e3 := Vector3(1.0, 0.0, 0.0), Vector3(0.0, 1.0, 0.0), Vector3(0.0, 0.0, 1.0);
    forall v: Vector3 | v in {e1, e2, e3}
      ensures a.Mul(b).Mul(c).Apply(v) == a.Mul(b.Mul(c)).Apply(v)
    {
      Matrix3MulApply(a.Mul(b), c, v);
      Matrix3MulApply(a, b, c.Apply(v));
      Matrix3MulApply(b, c, v);
      Matrix3MulApply(a, b.Mul(c), v);
    }
    Matrix3Extensional(a.Mul(b).Mul(c), a.Mul(b.Mul(c)));
  }

  /** Transposition swaps `m2`/`m4`, `m3`/`m7` and `m6`/`m8`, keeps the diagonal, undoes
      itself, and reverses products. */
  lemma Matrix3Transpose(a: Matrix3, b: Matrix3)
    ensures a.GetTransposed().m2 == a.m4 && a.GetTransposed().m4 == a.m2
    ensures a.GetTransposed().m3 == a.m7 && a.GetTransposed().m7 == a.m3
    ensures a.GetTransposed().m6 == a.m8 && a.GetTransposed().m8 == a.m6
    ensures a.GetTransposed().m1 == a.m1 && a.GetTransposed().m5 == a.m5 && a.GetTransposed().m9 == a.m9
    ensures a.GetTransposed().GetTransposed() == a
    ensures a.Mul(b).GetTransposed() == b.GetTransposed().Mul(a.GetTransposed())
  {
    Matrix3MulTransposed(a, b);
  }

  /** A three-term dot product does not depend on the order of the factors in each term. */
  lemma Dot3Commutes(x1: real, y1: real, x2: real, y2: real, x3: real, y3: real)
    ensures x1 * y1 + x2 * y2 + x3 * y3 == y1 * x1 + y2 * x2 + y3 * x3
  {
  }

  /** The transpose of a product is the product of the transposes in the other order. */
  lemma Matrix3MulTransposed(a: Matrix3, b: Matrix3)
    ensures a.Mul(b).GetTransposed() == b.GetTransposed().Mul(a.GetTransposed())
  {
    var ab, bt, at := a.Mul(b), b.GetTransposed(), a.GetTransposed();
    var r := bt.Mul(at);
    Dot3Commutes(a.m1, b.m1, a.m4, b.m2, a.m7, b.m3);
    Dot3Commutes(a.m1, b.m4, a.m4, b.m5, a.m7, b.m6);
    Dot3Commutes(a.m1, b.m7, a.m4, b.m8, a.m7, b.m9);
    Dot3Commutes(a.m2, b.m1, a.m5, b.m2, a.m8, b.m3);
    Dot3Commutes(a.m2, b.m4, a.m5, b.m5, a.m8, b.m6);
    Dot3Commutes(a.m2, b.m7, a.m5, b.m8, a.m8, b.m9);
    Dot3Commutes(a.m3, b.m1, a.m6, b.m2, a.m9, b.m3);
    Dot3Commutes(a.m3, b.m4, a.m6, b.m5, a.m9, b.m6);
    Dot3Commutes(a.m3, b.m7, a.m6, b.m8, a.m9, b.m9);
  }

  /** `Translate` adds its offset after the transform: on an affine matrix it equals
      pre-multiplication by a translation (not `this * translation`). */
  lemma Matrix3TranslateIsPreMultiply(a: Matrix3, x: real, y: real)
    requires a.IsAffine()
    ensures a.Translate(x, y) == Identity3.SetTranslation(x, y).Mul(a)
    ensures a.Translate(x, y).IsAffine()
  {
  }

  /** With `c*c + s*s == 1`, `SetRotateZ` preserves squared length. */
  lemma Matrix3RotateZPreservesLength(c: real, s: real, v: Vector3)
    requires c * c + s * s == 1.0
    ensures Zero3.SetRotateZ(c, s).Apply(v).MagnitudeSqr() == v.MagnitudeSqr()
  {
    var r := Zero3.SetRotateZ(c, s).Apply(v);
    calc {
      r.MagnitudeSqr();
      (c * v.x - s * v.y) * (c * v.x - s * v.y) + (s * v.x + c * v.y) * (s * v.x + c * v.y) + v.z * v.z;
      (c * c + s * s) * (v.x * v.x) + (c * c + s * s) * (v.y * v.y) + v.z * v.z;
      v.MagnitudeSqr();
    }
  }

  // ---------------------------------------------------------------------------------------
  // Matrix4

  /** Columns `(m1..m4)`, `(m5..m8)`, `(m9..m12)`, `(m13..m16)`; the translation is
      `(m13, m14, m15)`. */
  datatype Matrix4 = Matrix4(m1: real, m2: real, m3: real, m4: real,
                             m5: real, m6: real, m7: real, m8: real,
                             m9: real, m10: real, m11: real, m12: real,
                             m13: real, m14: real, m15: real, m16: real)
  {
    /** `lhs * rhs` for a `Vector4` */
    function Apply(v: Vector4): Vector4
    {
      Vector4(m1 * v.x + m5 * v.y + m9 * v.z + m13 * v.w,
              m2 * v.x + m6 * v.y + m10 * v.z + m14 * v.w,
              m3 * v.x + m7 * v.y + m11 * v.z + m15 * v.w,
              m4 * v.x + m8 * v.y + m12 * v.z + m16 * v.w)
    }

    /** `GetTransposed` as written passes the cells back in their own order through the
        constructor, which stores them as given: it returns the matrix unchanged, not its
        transpose (`Transposed` is the transpose). `Mul` depends on this, because its cells are
        already in column-major order before the call. */
    function GetTransposed(): (r: Matrix4)
      ensures r == this
    {
      Matrix4(m1, m2, m3, m4,
              m5, m6, m7, m8,
              m9, m10, m11, m12,
              m13, m14, m15, m16)
    }

    /** The transpose `GetTransposed` is documented to return: cell `(i, j)` moves to
        `(j, i)`, so the columns of the result are the rows of this matrix. */
    function Transposed(): Matrix4
    {
      Matrix4(m1, m5, m9, m13,
              m2, m6, m10, m14,
              m3, m7, m11, m15,
              m4, m8, m12, m16)
    }

    /** `lhs * rhs`: already the column-major product, passed through `GetTransposed`. */
    function Mul(rhs: Matrix4): Matrix4
    {
      Matrix4(rhs.m1 * m1 + rhs.m2 * m5 + rhs.m3 * m9 + rhs.m4 * m13,
              rhs.m1 * m2 + rhs.m2 * m6 + rhs.m3 * m10 + rhs.m4 * m14,
              rhs.m1 * m3 + rhs.m2 * m7 + rhs.m3 * m11 + rhs.m4 * m15,
              rhs.m1 * m4 + rhs.m2 * m8 + rhs.m3 * m12 + rhs.m4 * m16,

              rhs.m5 * m1 + rhs.m6 * m5 + rhs.m7 * m9 + rhs.m8 * m13,
              rhs.m5 * m2 + rhs.m6 * m6 + rhs.m7 * m10 + rhs.m8 * m14,
              rhs.m5 * m3 + rhs.m6 * m7 + rhs.m7 * m11 + rhs.m8 * m15,
              rhs.m5 * m4 + rhs.m6 * m8 + rhs.m7 * m12 + rhs.m8 * m16,

              rhs.m9 * m1 + rhs.m10 * m5 + rhs.m11 * m9 + rhs.m12 * m13,
              rhs.m9 * m2 + rhs.m10 * m6 + rhs.m11 * m10 + rhs.m12 * m14,
              rhs.m9 * m3 + rhs.m10 * m7 + rhs.m11 * m11 + rhs.m12 * m15,
              rhs.m9 * m4 + rhs.m10 * m8 + rhs.m11 * m12 + rhs.m12 * m16,

              rhs.m13 * m1 + rhs.m14 * m5 + rhs.m15 * m9 + rhs.m16 * m13,
              rhs.m13 * m2 + rhs.m14 * m6 + rhs.m15 * m10 + rhs.m16 * m14,
              rhs.m13 * m3 + rhs.m14 * m7 + rhs.m15 * m11 + rhs.m16 * m15,
              rhs.m13 * m4 + rhs.m14 * m8 + rhs.m15 * m12 + rhs.m16 * m16).GetTransposed()
    }

    /** `SetScaled(x, y, z)` overwrites all sixteen cells with `diag(x, y, z, 1)`. */
    function SetScaled(x: real, y: real, z: real): (r: Matrix4)
      ensures forall v: Vector4 {:trigger r.Apply(v)} :: r.Apply(v) == Vector4(x * v.x, y * v.y, z * v.z, v.w)
    {
      Matrix4(x, 0.0, 0.0, 0.0,
              0.0, y, 0.0, 0.0,
              0.0, 0.0, z, 0.0,
              0.0, 0.0, 0.0, 1.0)
    }

    /** `Scale(x, y, z)` sets this to `this * diag(x, y, z, 1)`. */
    function Scale(x: real, y: real, z: real): (r: Matrix4)
      ensures forall v: Vector4 {:trigger r.Apply(v)} :: r.Apply(v) == Apply(Vector4(x * v.x, y * v.y, z * v.z, v.w))
    {
      Matrix4MulApplyAll(this, SetScaled(x, y, z));
      Mul(SetScaled(x, y, z))
    }

    /** `SetTranslation(x, y, z)` writes `m13..m16 = x, y, z, 1` only. */
    function SetTranslation(x: real, y: real, z: real): (r: Matrix4)
      ensures r.Apply(Vector4(0.0, 0.0, 0.0, 1.0)) == Vector4(x, y, z, 1.0)
      ensures r.(m13 := m13, m14 := m14, m15 := m15, m16 := m16) == this
    {
      this.(m13 := x, m14 := y, m15 := z, m16 := 1.0)
    }

    /** `Translate(x, y, z)` adds to `m13..m15` only. */
    function Translate(x: real, y: real, z: real): (r: Matrix4)
      ensures r.Apply(Vector4(0.0, 0.0, 0.0, 1.0)) == Apply(Vector4(0.0, 0.0, 0.0, 1.0)).Add(Vector4(x, y, z, 0.0))
      ensures r.(m13 := m13, m14 := m14, m15 := m15) == this
    {
      this.(m13 := m13 + x, m14 := m14 + y, m15 := m15 + z)
    }
  }

  const Identity4: Matrix4 := Matrix4(1.0, 0.0, 0.0, 0.0,
                                      0.0, 1.0, 0.0, 0.0,
                                      0.0, 0.0, 1.0, 0.0,
                                      0.0, 0.0, 0.0, 1.0)

  /** One row of a four-by-four product applied to a vector, expanded into its sixteen terms:
      `c1..c4` are the row's cells of the product, `a1..a4` the row of the left factor and
      `b1..b16` the right factor. */
  lemma Row4ExpandProduct(a1: real, a2: real, a3: real, a4: real,
                          b1: real, b2: real, b3: real, b4: real, b5: real, b6: real, b7: real, b8: real,
                          b9: real, b10: real, b11: real, b12: real, b13: real, b14: real, b15: real, b16: real,
                          x: real, y: real, z: real, w: real,
                          c1: real, c2: real, c3: real, c4: real)
    requires c1 == b1 * a1 + b2 * a2 + b3 * a3 + b4 * a4
    requires c2 == b5 * a1 + b6 * a2 + b7 * a3 + b8 * a4
    requires c3 == b9 * a1 + b10 * a2 + b11 * a3 + b12 * a4
    requires c4 == b13 * a1 + b14 * a2 + b15 * a3 + b16 * a4
    ensures c1 * x + c2 * y + c3 * z + c4 * w ==
            (b1 * a1) * x + (b2 * a2) * x + (b3 * a3) * x + (b4 * a4) * x +
            (b5 * a1) * y + (b6 * a2) * y + (b7 * a3) * y + (b8 * a4) * y +
            (b9 * a1) * z + (b10 * a2) * z + (b11 * a3) * z + (b12 * a4) * z +
            (b13 * a1) * w + (b14 * a2) * w + (b15 * a3) * w + (b16 * a4) * w
  {
    Distribute4(b1 * a1, b2 * a2, b3 * a3, b4 * a4, x);
    Distribute4(b5 * a1, b6 * a2, b7 * a3, b8 * a4, y);
    Distribute4(b9 * a1, b10 * a2, b11 * a3, b12 * a4, z);
    Distribute4(b13 * a1, b14 * a2, b15 * a3, b16 * a4, w);
  }

  /** The same row computed as the left factor's row applied to `u1..u4`, the right factor
      applied to `(x, y, z, w)`, expanded into its sixteen terms. */
  lemma Row4ExpandApply(a1: real, a2: real, a3: real, a4: real,
                        b1: real, b2: real, b3: real, b4: real, b5: real, b6: real, b7: real, b8: real,
                        b9: real, b10: real, b11: real, b12: real, b13: real, b14: real, b15: real, b16: real,
                        x: real, y: real, z: real, w: real,
                        u1: real, u2: real, u3: real, u4: real)
    requires u1 == b1 * x + b5 * y + b9 * z + b13 * w
    requires u2 == b2 * x + b6 * y + b10 * z + b14 * w
    requires u3 == b3 * x + b7 * y + b11 * z + b15 * w
    requires u4 == b4 * x + b8 * y + b12 * z + b16 * w
    ensures a1 * u1 + a2 * u2 + a3 * u3 + a4 * u4 ==
            a1 * (b1 * x) + a1 * (b5 * y) + a1 * (b9 * z) + a1 * (b13 * w) +
            a2 * (b2 * x) + a2 * (b6 * y) + a2 * (b10 * z) + a2 * (b14 * w) +
            a3 * (b3 * x) + a3 * (b7 * y) + a3 * (b11 * z) + a3 * (b15 * w) +
            a4 * (b4 * x) + a4 * (b8 * y) + a4 * (b12 * z) + a4 * (b16 * w)
  {
    Distribute4(b1 * x, b5 * y, b9 * z, b13 * w, a1);
    Distribute4(b2 * x, b6 * y, b10 * z, b14 * w, a2);
    Distribute4(b3 * x, b7 * y, b11 * z, b15 * w, a3);
    Distribute4(b4 * x, b8 * y, b12 * z, b16 * w, a4);
  }

  /** The two expansions agree: one row of `(a * b) v` equals the same row of `a (b v)`. */
  lemma Row4Regroup(a1: real, a2: real, a3: real, a4: real,
                    b1: real, b2: real, b3: real, b4: real, b5: real, b6: real, b7: real, b8: real,
                    b9: real, b10: real, b11: real, b12: real, b13: real, b14: real, b15: real, b16: real,
                    x: real, y: real, z: real, w: real,
                    c1: real, c2: real, c3: real, c4: real, u1: real, u2: real, u3: real, u4: real)
    requires c1 == b1 * a1 + b2 * a2 + b3 * a3 + b4 * a4
    requires c2 == b5 * a1 + b6 * a2 + b7 * a3 + b8 * a4
    requires c3 == b9 * a1 + b10 * a2 + b11 * a3 + b12 * a4
    requires c4 == b13 * a1 + b14 * a2 + b15 * a3 + b16 * a4
    requires u1 == b1 * x + b5 * y + b9 * z + b13 * w
    requires u2 == b2 * x + b6 * y + b10 * z + b14 * w
    requires u3 == b3 * x + b7 * y + b11 * z + b15 * w
    requires u4 == b4 * x + b8 * y + b12 * z + b16 * w
    ensures c1 * x + c2 * y + c3 * z + c4 * w == a1 * u1 + a2 * u2 + a3 * u3 + a4 * u4
  {
    Row4ExpandProduct(a1, a2, a3, a4, b1, b2, b3, b4, b5, b6, b7, b8, b9, b10, b11, b12,
                      b13, b14, b15, b16, x, y, z, w, c1, c2, c3, c4);
    Row4ExpandApply(a1, a2, a3, a4, b1, b2, b3, b4, b5, b6, b7, b8, b9, b10, b11, b12,
                    b13, b14, b15, b16, x, y, z, w, u1, u2, u3, u4);
    Regroup(a1, b1, x); Regroup(a1, b5, y); Regroup(a1, b9, z); Regroup(a1, b13, w);
    Regroup(a2, b2, x); Regroup(a2, b6, y); Regroup(a2, b10, z); Regroup(a2, b14, w);
    Regroup(a3, b3, x); Regroup(a3, b7, y); Regroup(a3, b11, z); Regroup(a3, b15, w);
    Regroup(a4, b4, x); Regroup(a4, b8, y); Regroup(a4, b12, z); Regroup(a4, b16, w);
  }

  /** Because `GetTransposed` changes nothing, `Matrix4 *` is the true product: applying it is
      applying its factors in turn. */
  lemma Matrix4MulApply(a: Matrix4, b: Matrix4, v: Vector4)
    ensures a.Mul(b).Apply(v) == a.Apply(b.Apply(v))
  {
    Matrix4MulApplyRowX(a, b, v);
    Matrix4MulApplyRowY(a, b, v);
    Matrix4MulApplyRowZ(a, b, v);
    Matrix4MulApplyRowW(a, b, v);
  }

  /** The four components of `Matrix4MulApply`, one lemma each. */
  lemma Matrix4MulApplyRowX(a: Matrix4, b: Matrix4, v: Vector4)
    ensures a.Mul(b).Apply(v).x == a.Apply(b.Apply(v)).x
  {
    var p, w := a.Mul(b), b.Apply(v);
    Row4Regroup(a.m1, a.m5, a.m9, a.m13, b.m1, b.m2, b.m3, b.m4, b.m5, b.m6, b.m7, b.m8,
                b.m9, b.m10, b.m11, b.m12, b.m13, b.m14, b.m15, b.m16,
                v.x, v.y, v.z, v.w, p.m1, p.m5, p.m9, p.m13, w.x, w.y, w.z, w.w);
  }

  lemma Matrix4MulApplyRowY(a: Matrix4, b: Matrix4, v: Vector4)
    ensures a.Mul(b).Apply(v).y == a.Apply(b.Apply(v)).y
  {
    var p, w := a.Mul(b), b.Apply(v);
    Row4Regroup(a.m2, a.m6, a.m10, a.m14, b.m1, b.m2, b.m3, b.m4, b.m5, b.m6, b.m7, b.m8,
                b.m9, b.m10, b.m11, b.m12, b.m13, b.m14, b.m15, b.m16,
                v.x, v.y, v.z, v.w, p.m2, p.m6, p.m10, p.m14, w.x, w.y, w.z, w.w);
  }

  lemma Matrix4MulApplyRowZ(a: Matrix4, b: Matrix4, v: Vector4)
    ensures a.Mul(b).Apply(v).z == a.Apply(b.Apply(v)).z
  {
    var p, w := a.Mul(b), b.Apply(v);
    Row4Regroup(a.m3, a.m7, a.m11, a.m15, b.m1, b.m2, b.m3, b.m4, b.m5, b.m6, b.m7, b.m8,
                b.m9, b.m10, b.m11, b.m12, b.m13, b.m14, b.m15, b.m16,
                v.x, v.y, v.z, v.w, p.m3, p.m7, p.m11, p.m15, w.x, w.y, w.z, w.w);
  }

  lemma Matrix4MulApplyRowW(a: Matrix4, b: Matrix4, v: Vector4)
    ensures a.Mul(b).Apply(v).w == a.Apply(b.Apply(v)).w
  {
    var p, w := a.Mul(b), b.Apply(v);
    Row4Regroup(a.m4, a.m8, a.m12, a.m16, b.m1, b.m2, b.m3, b.m4, b.m5, b.m6, b.m7, b.m8,
                b.m9, b.m10, b.m11, b.m12, b.m13, b.m14, b.m15, b.m16,
                v.x, v.y, v.z, v.w, p.m4, p.m8, p.m12, p.m16, w.x, w.y, w.z, w.w);
  }

  /** `Matrix4MulApply` for every vector at once. */
  lemma Matrix4MulApplyAll(a: Matrix4, b: Matrix4)
    ensures forall v: Vector4 {:trigger a.Mul(b).Apply(v)} :: a.Mul(b).Apply(v) == a.Apply(b.Apply(v))
  {
    forall v: Vector4 ensures a.Mul(b).Apply(v) == a.Apply(b.Apply(v)) {
      Matrix4MulApply(a, b, v);
    }
  }


  /** A matrix is determined by its images of the four unit vectors. */
  lemma Matrix4Extensional(a: Matrix4, b: Matrix4)
    requires a.Apply(Vector4(1.0, 0.0, 0.0, 0.0)) == b.Apply(Vector4(1.0, 0.0, 0.0, 0.0))
    requires a.Apply(Vector4(0.0, 1.0, 0.0, 0.0)) == b.Apply(Vector4(0.0, 1.0, 0.0, 0.0))
    requires a.Apply(Vector4(0.0, 0.0, 1.0, 0.0)) == b.Apply(Vector4(0.0, 0.0, 1.0, 0.0))
    requires a.Apply(Vector4(0.0, 0.0, 0.0, 1.0)) == b.Apply(Vector4(0.0, 0.0, 0.0, 1.0))
    ensures a == b
  {
  }

  /** `identity` is a two-sided unit of the product. */
  lemma Matrix4IdentityUnit(a: Matrix4)
    ensures Identity4.Mul(a) == a
    ensures a.Mul(Identity4) == a
  {
  }

  /** The product is associative. */
  lemma {:induction false} Matrix4MulAssoc(a: Matrix4, b: Matrix4, c: Matrix4)
    ensures a.Mul(b).Mul(c) == a.Mul(b.Mul(c))
  {
    var e1, e2 := Vector4(1.0, 0.0, 0.0, 0.0), Vector4(0.0, 1.0, 0.0, 0.0);
    var e3, e4 := Vector4(0.0, 0.0, 1.0, 0.0), Vector4(0.0, 0.0, 0.0, 1.0);
    forall v: Vector4 | v in {e1, e2, e3, e4}
      ensures a.Mul(b).Mul(c).Apply(v) == a.Mul(b.Mul(c)).Apply(v)
    {
      Matrix4MulApply(a.Mul(b), c, v);
      Matrix4MulApply(a, b, c.Apply(v));
      Matrix4MulApply(b, c, v);
      Matrix4MulApply(a, b.Mul(c), v);
    }
    Matrix4Extensional(a.Mul(b).Mul(c), a.Mul(b.Mul(c)));
  }

  /** The corrected transpose is an involution and fixes the identity. */
  lemma Matrix4TransposedInvolution(a: Matrix4)
    ensures a.Transposed().Transposed() == a
    ensures Identity4.Transposed() == Identity4
  {
  }

  /** The columns of the corrected transpose are the rows of the matrix: applied to the
      `j`-th unit vector it gives row `j`. */
  lemma Matrix4TransposedColumns(a: Matrix4)
    ensures a.Transposed().Apply(Vector4(1.0, 0.0, 0.0, 0.0)) == Vector4(a.m1, a.m5, a.m9, a.m13)
    ensures a.Transposed().Apply(Vector4(0.0, 1.0, 0.0, 0.0)) == Vector4(a.m2, a.m6, a.m10, a.m14)
    ensures a.Transposed().Apply(Vector4(0.0, 0.0, 1.0, 0.0)) == Vector4(a.m3, a.m7, a.m11, a.m15)
    ensures a.Transposed().Apply(Vector4(0.0, 0.0, 0.0, 1.0)) == Vector4(a.m4, a.m8, a.m12, a.m16)
  {
  }

  /** A four-term dot product does not depend on the order of the factors in each term. */
  lemma Dot4Commutes(x1: real, y1: real, x2: real, y2: real, x3: real, y3: real, x4: real, y4: real)
    ensures x1 * y1 + x2 * y2 + x3 * y3 + x4 * y4 == y1 * x1 + y2 * x2 + y3 * x3 + y4 * x4
  {
  }

  /** The corrected transpose reverses the order of a product. */
  lemma Matrix4TransposedProduct(a: Matrix4, b: Matrix4)
    ensures a.Mul(b).Transposed() == b.Transposed().Mul(a.Transposed())
  {
    Matrix4TransposedProductColumnX(a, b);
    Matrix4TransposedProductColumnY(a, b);
    Matrix4TransposedProductColumnZ(a, b);
    Matrix4TransposedProductColumnW(a, b);
  }

  /** Column 1 of `Matrix4TransposedProduct`. */
  lemma Matrix4TransposedProductColumnX(a: Matrix4, b: Matrix4)
    ensures var l, r := a.Mul(b).Transposed(), b.Transposed().Mul(a.Transposed());
            l.m1 == r.m1 && l.m2 == r.m2 && l.m3 == r.m3 && l.m4 == r.m4
  {
    Dot4Commutes(b.m1, a.m1, b.m2, a.m5, b.m3, a.m9, b.m4, a.m13);
    Dot4Commutes(b.m5, a.m1, b.m6, a.m5, b.m7, a.m9, b.m8, a.m13);
    Dot4Commutes(b.m9, a.m1, b.m10, a.m5, b.m11, a.m9, b.m12, a.m13);
    Dot4Commutes(b.m13, a.m1, b.m14, a.m5, b.m15, a.m9, b.m16, a.m13);
  }

  /** Column 2 of `Matrix4TransposedProduct`. */
  lemma Matrix4TransposedProductColumnY(a: Matrix4, b: Matrix4)
    ensures var l, r := a.Mul(b).Transposed(), b.Transposed().Mul(a.Transposed());
            l.m5 == r.m5 && l.m6 == r.m6 && l.m7 == r.m7 && l.m8 == r.m8
  {
    Dot4Commutes(b.m1, a.m2, b.m2, a.m6, b.m3, a.m10, b.m4, a.m14);
    Dot4Commutes(b.m5, a.m2, b.m6, a.m6, b.m7, a.m10, b.m8, a.m14);
    Dot4Commutes(b.m9, a.m2, b.m10, a.m6, b.m11, a.m10, b.m12, a.m14);
    Dot4Commutes(b.m13, a.m2, b.m14, a.m6, b.m15, a.m10, b.m16, a.m14);
  }

  /** Column 3 of `Matrix4TransposedProduct`. */
  lemma Matrix4TransposedProductColumnZ(a: Matrix4, b: Matrix4)
    ensures var l, r := a.Mul(b).Transposed(), b.Transposed().Mul(a.Transposed());
            l.m9 == r.m9 && l.m10 == r.m10 && l.m11 == r.m11 && l.m12 == r.m12
  {
    Dot4Commutes(b.m1, a.m3, b.m2, a.m7, b.m3, a.m11, b.m4, a.m15);
    Dot4Commutes(b.m5, a.m3, b.m6, a.m7, b.m7, a.m11, b.m8, a.m15);
    Dot4Commutes(b.m9, a.m3, b.m10, a.m7, b.m11, a.m11, b.m12, a.m15);
    Dot4Commutes(b.m13, a.m3, b.m14, a.m7, b.m15, a.m11, b.m16, a.m15);
  }

  /** Column 4 of `Matrix4TransposedProduct`. */
  lemma Matrix4TransposedProductColumnW(a: Matrix4, b: Matrix4)
    ensures var l, r := a.Mul(b).Transposed(), b.Transposed().Mul(a.Transposed());
            l.m13 == r.m13 && l.m14 == r.m14 && l.m15 == r.m15 && l.m16 == r.m16
  {
    Dot4Commutes(b.m1, a.m4, b.m2, a.m8, b.m3, a.m12, b.m4, a.m16);
    Dot4Commutes(b.m5, a.m4, b.m6, a.m8, b.m7, a.m12, b.m8, a.m16);
    Dot4Commutes(b.m9, a.m4, b.m10, a.m8, b.m11, a.m12, b.m12, a.m16);
    Dot4Commutes(b.m13, a.m4, b.m14, a.m8, b.m15, a.m12, b.m16, a.m16);
  }

  /** `GetTransposed` as written is not a transpose: on the translation by `(1, 0, 0)` it
      returns the matrix itself, where `Transposed` moves the offset into the bottom row. */
  lemma Matrix4TransposeDefect()
    ensures Identity4.(m13 := 1.0).GetTransposed() != Identity4.(m13 := 1.0).Transposed()
  {
    assert Identity4.(m13 := 1.0).Transposed().m4 == 1.0;
  }
}
