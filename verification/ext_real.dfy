/** Floats with their two infinities, as the collision boxes need them.

    A box's bounds start at `float.NegativeInfinity`/`float.PositiveInfinity`, so a bound is
    an extended real: a finite real or one of the two infinities. NaN arises only from
    adding opposite infinities (or subtracting equal ones); those operations return `None`
    where NaN would appear. */
module ExtendedReals {
  import opened Options
  import opened Vectors

  datatype ExtReal = NegInf | Fin(value: real) | PosInf
  {
    /** IEEE `<` on non-NaN floats: `-inf` is below every other value and `+inf` above. */
    predicate Lt(o: ExtReal)
    {
      match this
      case NegInf => !o.NegInf?
      case Fin(a) => o.PosInf? || (o.Fin? && a < o.value)
      case PosInf => false
    }

    predicate Le(o: ExtReal)
    {
      this == o || Lt(o)
    }

    /** The float `Math.Min` with a strict test: `this < o ? this : o`. */
    function Min(o: ExtReal): (r: ExtReal)
      ensures r.Le(this) && r.Le(o)
      ensures r == this || r == o
    {
      if Lt(o) then this else o
    }

    /** The float `Math.Max` with a strict test: `this > o ? this : o`. */
    function Max(o: ExtReal): (r: ExtReal)
      ensures this.Le(r) && o.Le(r)
      ensures r == this || r == o
    {
      if o.Lt(this) then this else o
    }

    /** `Math.Abs`: a finite value loses its sign and both infinities become `+inf`. */
    function Abs(): (r: ExtReal)
      ensures Fin(0.0).Le(r)
      ensures Fin? <==> r.Fin?
      ensures Fin? ==> r.value == (if value < 0.0 then -value else value)
      ensures !Fin? ==> r == PosInf
    {
      match this
      case NegInf => PosInf
      case Fin(a) => Fin(if a < 0.0 then -a else a)
      case PosInf => PosInf
    }

    /** `this * 0.5f`: an infinity stays the same infinity. */
    function Half(): (r: ExtReal)
      ensures Fin? ==> r == Fin(value / 2.0)
      ensures !Fin? ==> r == this
    {
      match this
      case Fin(a) => Fin(a * 0.5)
      case _ => this
    }

    /** `this + o`; `None` where the float sum is NaN (`+inf + -inf`). */
    function Plus(o: ExtReal): (r: Option<ExtReal>)
      ensures r.None? <==> (NegInf? && o.PosInf?) || (PosInf? && o.NegInf?)
      ensures Fin? && o.Fin? ==> r == Some(Fin(value + o.value))
      ensures r.Some? && !(Fin? && o.Fin?) ==> r.value == (if Fin? then o else this)
    {
      match (this, o)
      case (Fin(a), Fin(b)) => Some(Fin(a + b))
      case (NegInf, PosInf) => None
      case (PosInf, NegInf) => None
      case (NegInf, _) => Some(NegInf)
      case (PosInf, _) => Some(PosInf)
      case (_, _) => Some(o)
    }

    /** `this - o`; `None` where the float difference is NaN (`inf - inf` of one sign). */
    function Minus(o: ExtReal): (r: Option<ExtReal>)
      ensures r.None? <==> (NegInf? && o.NegInf?) || (PosInf? && o.PosInf?)
      ensures Fin? && o.Fin? ==> r == Some(Fin(value - o.value))
      ensures r.Some? && !(Fin? && o.Fin?) ==> r.value == (if Fin? then (if o.NegInf? then PosInf else NegInf) else this)
    {
      match (this, o)
      case (Fin(a), Fin(b)) => Some(Fin(a - b))
      case (NegInf, NegInf) => None
      case (PosInf, PosInf) => None
      case (NegInf, _) => Some(NegInf)
      case (PosInf, _) => Some(PosInf)
      case (_, NegInf) => Some(PosInf)
      case (_, _) => Some(NegInf)
    }
  }

  /** `Lt` is a strict total order and `Le` the matching total order. */
  lemma LtStrictTotalOrder(a: ExtReal, b: ExtReal, c: ExtReal)
    ensures !a.Lt(a)
    ensures a.Lt(b) ==> !b.Lt(a)
    ensures a.Lt(b) && b.Lt(c) ==> a.Lt(c)
    ensures a.Lt(b) || a == b || b.Lt(a)
    ensures a.Le(b) <==> !b.Lt(a)
  {
  }

  /** A `Vector3` whose components may be infinite: the type of `AABB.min` and `AABB.max`. */
  datatype ExtVector3 = ExtVector3(x: ExtReal, y: ExtReal, z: ExtReal)
  {
    static function FromVector(v: Vector3): ExtVector3
    {
      ExtVector3(Fin(v.x), Fin(v.y), Fin(v.z))
    }

    /** The same value on all three axes, as in the infinite sentinels. */
    static function Uniform(e: ExtReal): ExtVector3
    {
      ExtVector3(e, e, e)
    }

    predicate IsFinite()
    {
      x.Fin? && y.Fin? && z.Fin?
    }

    function ToVector(): (r: Vector3)
      requires IsFinite()
      ensures FromVector(r) == this
    {
      Vector3(x.value, y.value, z.value)
    }

    /** Componentwise `Le`: this lies at or below `o` on every axis. */
    predicate LeAll(o: ExtVector3)
    {
      x.Le(o.x) && y.Le(o.y) && z.Le(o.z)
    }

    /** `Vector3.Min`: componentwise minimum. The vector type in `MathFunctions.cs` defines no
        `Min`, `Max` or `Clamp`; they are modelled componentwise, as `System.Numerics.Vector3`
        defines them. */
    function Min(o: ExtVector3): (r: ExtVector3)
      ensures r.LeAll(this) && r.LeAll(o)
      ensures (r.x == x || r.x == o.x) && (r.y == y || r.y == o.y) && (r.z == z || r.z == o.z)
    {
      ExtVector3(x.Min(o.x), y.Min(o.y), z.Min(o.z))
    }

    /** `Vector3.Max`: componentwise maximum. */
    function Max(o: ExtVector3): (r: ExtVector3)
      ensures this.LeAll(r) && o.LeAll(r)
      ensures (r.x == x || r.x == o.x) && (r.y == y || r.y == o.y) && (r.z == z || r.z == o.z)
    {
      ExtVector3(x.Max(o.x), y.Max(o.y), z.Max(o.z))
    }

    /** `Vector3.Clamp(this, lo, hi)`: `Min(Max(this, lo), hi)` componentwise. */
    function Clamp(lo: ExtVector3, hi: ExtVector3): (r: ExtVector3)
      ensures r.LeAll(hi)
      ensures lo.LeAll(hi) ==> lo.LeAll(r)
    {
      LtStrictTotalOrder(x.Max(lo.x), hi.x, lo.x);
      LtStrictTotalOrder(y.Max(lo.y), hi.y, lo.y);
      LtStrictTotalOrder(z.Max(lo.z), hi.z, lo.z);
      Max(lo).Min(hi)
    }
  }
}
