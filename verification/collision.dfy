/** The collision primitives: an axis-aligned box (`AABB`) and a `Sphere`.

    Both are C# classes with fields, so they are Dafny classes here. The box's corners may be
    infinite (`ExtVector3`). The sphere's radius is not checked for sign, as in the C#
    constructor. Queries are functions that read the object; `Fit` and `Extents` change the
    box's fields and are methods. */
module Collision {
  import opened Options
  import opened Vectors
  import opened ExtendedReals

  /** One of the three coordinate axes. */
  datatype Axis = X | Y | Z

  function Along(v: Vector3, a: Axis): real
  {
    match a
    case X => v.x
    case Y => v.y
    case Z => v.z
  }

  function ExtAlong(v: ExtVector3, a: Axis): ExtReal
  {
    match a
    case X => v.x
    case Y => v.y
    case Z => v.z
  }

  // ---------------------------------------------------------------------------------------
  // Fitting a box to points

  /** The `min` that `Fit` leaves: the `+inf` sentinel, folded with `Vector3.Min` over the
      points in order. */
  function LowerFold(points: seq<Vector3>): ExtVector3
  {
    if |points| == 0 then ExtVector3.Uniform(PosInf)
    else LowerFold(points[..|points| - 1]).Min(ExtVector3.FromVector(points[|points| - 1]))
  }

  /** The `max` that `Fit` leaves: the `-inf` sentinel, folded with `Vector3.Max`. */
  function UpperFold(points: seq<Vector3>): ExtVector3
  {
    if |points| == 0 then ExtVector3.Uniform(NegInf)
    else UpperFold(points[..|points| - 1]).Max(ExtVector3.FromVector(points[|points| - 1]))
  }

  /** Every point lies between the two folds on every axis. */
  lemma {:induction false} FoldsBoundPoints(points: seq<Vector3>, k: nat)
    requires k < |points|
    ensures LowerFold(points).LeAll(ExtVector3.FromVector(points[k]))
    ensures ExtVector3.FromVector(points[k]).LeAll(UpperFold(points))
  {
    var n := |points| - 1;
    var p := ExtVector3.FromVector(points[k]);
    if k < n {
      FoldsBoundPoints(points[..n], k);
      assert points[..n][k] == points[k];
      var lo, hi := LowerFold(points[..n]), UpperFold(points[..n]);
      LtStrictTotalOrder(LowerFold(points).x, lo.x, p.x);
      LtStrictTotalOrder(LowerFold(points).y, lo.y, p.y);
      LtStrictTotalOrder(LowerFold(points).z, lo.z, p.z);
      LtStrictTotalOrder(p.x, hi.x, UpperFold(points).x);
      LtStrictTotalOrder(p.y, hi.y, UpperFold(points).y);
      LtStrictTotalOrder(p.z, hi.z, UpperFold(points).z);
    }
  }

  /** On a non-empty point list the folds are attained: each axis of `LowerFold` is some
      point's coordinate, and likewise for `UpperFold`. */
  lemma {:induction false} FoldsAttained(points: seq<Vector3>, a: Axis)
    requires |points| > 0
    ensures exists k :: 0 <= k < |points| && ExtAlong(LowerFold(points), a) == Fin(Along(points[k], a))
    ensures exists k :: 0 <= k < |points| && ExtAlong(UpperFold(points), a) == Fin(Along(points[k], a))
  {
    var n := |points| - 1;
    var last := Fin(Along(points[n], a));
    if n == 0 {
      assert ExtAlong(LowerFold(points), a) == last;
      assert ExtAlong(UpperFold(points), a) == last;
    } else {
      FoldsAttained(points[..n], a);
      var j :| 0 <= j < n && ExtAlong(LowerFold(points[..n]), a) == Fin(Along(points[..n][j], a));
      var l :| 0 <= l < n && ExtAlong(UpperFold(points[..n]), a) == Fin(Along(points[..n][l], a));
      assert points[..n][j] == points[j] && points[..n][l] == points[l];
      if ExtAlong(LowerFold(points), a) == last {
      } else {
        assert ExtAlong(LowerFold(points), a) == Fin(Along(points[j], a));
      }
      if ExtAlong(UpperFold(points), a) == last {
      } else {
        assert ExtAlong(UpperFold(points), a) == Fin(Along(points[l], a));
      }
    }
  }

  /** After fitting non-empty points, `min` and `max` are exactly the componentwise minima
      and maxima: finite, attained by some point, and bounding every point. */
  lemma FitIsExact(points: seq<Vector3>, a: Axis)
    requires |points| > 0
    ensures ExtAlong(LowerFold(points), a).Fin? && ExtAlong(UpperFold(points), a).Fin?
    ensures exists k :: 0 <= k < |points| && ExtAlong(LowerFold(points), a) == Fin(Along(points[k], a))
    ensures exists k :: 0 <= k < |points| && ExtAlong(UpperFold(points), a) == Fin(Along(points[k], a))
    ensures forall k :: 0 <= k < |points| ==>
      ExtAlong(LowerFold(points), a).Le(Fin(Along(points[k], a))) &&
      Fin(Along(points[k], a)).Le(ExtAlong(UpperFold(points), a))
  {
    FoldsAttained(points, a);
    forall k | 0 <= k < |points|
      ensures ExtAlong(LowerFold(points), a).Le(Fin(Along(points[k], a)))
      ensures Fin(Along(points[k], a)).Le(ExtAlong(UpperFold(points), a))
    {
      FoldsBoundPoints(points, k);
    }
  }

  // ---------------------------------------------------------------------------------------
  // AABB

  /** `List<T>`'s indexer setter: replaces an existing element, and throws
      `ArgumentOutOfRangeException` for an index outside `[0, Count)`. */
  function SetItem<T>(items: seq<T>, index: int, v: T): (r: Result<seq<T>, ListError>)
    ensures r.Success? <==> 0 <= index < |items|
    ensures r.Success? ==> |r.value| == |items| && r.value[index] == v
  {
    if 0 <= index < |items| then Success(items[index := v]) else Failure(ArgumentOutOfRange)
  }

  /** A run of indexer writes, in order, stopping at the first that throws: it succeeds exactly
      when every index is in range, and then an index nobody writes keeps its item and every
      written index holds the last value written to it. */
  function SetItems<T>(items: seq<T>, writes: seq<(int, T)>): (r: Result<seq<T>, ListError>)
    ensures r.Success? <==> forall k :: 0 <= k < |writes| ==> 0 <= writes[k].0 < |items|
    ensures r.Failure? ==> r.error == ArgumentOutOfRange
    ensures r.Success? ==> |r.value| == |items|
    ensures r.Success? ==> forall i :: 0 <= i < |items| && (forall k :: 0 <= k < |writes| ==> writes[k].0 != i) ==> r.value[i] == items[i]
    ensures r.Success? ==> forall k :: 0 <= k < |writes| && (forall j :: k < j < |writes| ==> writes[j].0 != writes[k].0) ==> r.value[writes[k].0] == writes[k].1
    decreases |writes|
  {
    if |writes| == 0 then Success(items)
    else
      match SetItem(items, writes[0].0, writes[0].1)
      case Failure(err) => Failure(err)
      case Success(next) => SetItems(next, writes[1..])
  }

  class AABB {
    var min: ExtVector3
    var max: ExtVector3

    /** `AABB()`: the field initialisers make the box unbounded, `min = -inf`, `max = +inf`. */
    constructor ()
      ensures min == ExtVector3.Uniform(NegInf) && max == ExtVector3.Uniform(PosInf)
    {
      min := ExtVector3.Uniform(NegInf);
      max := ExtVector3.Uniform(PosInf);
    }

    /** `AABB(min, max)`: stores the bounds as given; nothing checks `min <= max`. */
    constructor FromBounds(min: Vector3, max: Vector3)
      ensures this.min == ExtVector3.FromVector(min) && this.max == ExtVector3.FromVector(max)
    {
      this.min := ExtVector3.FromVector(min);
      this.max := ExtVector3.FromVector(max);
    }

    /** `Fit(List<Vector3>)`: reset to the empty sentinel, then widen over the points. */
    method Fit(points: seq<Vector3>)
      modifies this
      ensures min == LowerFold(points) && max == UpperFold(points)
    {
      min := ExtVector3.Uniform(PosInf);
      max := ExtVector3.Uniform(NegInf);
      for i := 0 to |points|
        invariant min == LowerFold(points[..i]) && max == UpperFold(points[..i])
      {
        assert points[..i + 1][..i] == points[..i];
        min := min.Min(ExtVector3.FromVector(points[i]));
        max := max.Max(ExtVector3.FromVector(points[i]));
      }
      assert points[..|points|] == points;
    }

    /** `Fit(Vector3[])`: the same fold over an array. */
    method FitArray(points: array<Vector3>)
      modifies this
      ensures min == LowerFold(points[..]) && max == UpperFold(points[..])
    {
      min := ExtVector3.Uniform(PosInf);
      max := ExtVector3.Uniform(NegInf);
      for i := 0 to points.Length
        invariant min == LowerFold(points[..i]) && max == UpperFold(points[..i])
      {
        assert points[..i + 1][..i] == points[..i];
        min := min.Min(ExtVector3.FromVector(points[i]));
        max := max.Max(ExtVector3.FromVector(points[i]));
      }
      assert points[..points.Length] == points[..];
    }

    /** `Overlaps(Vector3)`: inside `[min, max]` on x and y, boundary included; z is ignored. */
    function Overlaps(p: Vector3): (r: bool)
      reads this
      ensures r <==> min.x.Le(Fin(p.x)) && Fin(p.x).Le(max.x) && min.y.Le(Fin(p.y)) && Fin(p.y).Le(max.y)
    {
      LtStrictTotalOrder(Fin(p.x), min.x, max.x);
      LtStrictTotalOrder(Fin(p.y), min.y, max.y);
      !(Fin(p.x).Lt(min.x) || Fin(p.y).Lt(min.y) || max.x.Lt(Fin(p.x)) || max.y.Lt(Fin(p.y)))
    }

    /** `Overlaps(AABB)`: the x intervals meet and the y intervals meet, boundaries included. */
    function OverlapsBox(other: AABB): (r: bool)
      reads this, other
      ensures r <==> (min.x.Le(other.max.x) && other.min.x.Le(max.x) &&
                      min.y.Le(other.max.y) && other.min.y.Le(max.y))
    {
      LtStrictTotalOrder(min.x, other.max.x, max.x);
      LtStrictTotalOrder(min.y, other.max.y, max.y);
      LtStrictTotalOrder(other.min.x, max.x, min.x);
      LtStrictTotalOrder(other.min.y, max.y, min.y);
      !(max.x.Lt(other.min.x) || max.y.Lt(other.min.y) || other.max.x.Lt(min.x) || other.max.y.Lt(min.y))
    }

    /** `ClosestPoint`: `Vector3.Clamp(p, min, max)`. It never exceeds `max`; on a box with
        `min <= max` it lies inside the box, and a point already inside is returned as is. */
    function ClosestPoint(p: Vector3): (r: ExtVector3)
      reads this
      ensures r.LeAll(max)
      ensures min.LeAll(max) ==> min.LeAll(r)
      ensures Contains(p) ==> r == ExtVector3.FromVector(p)
    {
      var v := ExtVector3.FromVector(p);
      LtStrictTotalOrder(v.x, min.x, max.x);
      LtStrictTotalOrder(v.y, min.y, max.y);
      LtStrictTotalOrder(v.z, min.z, max.z);
      v.Clamp(min, max)
    }

    /** `p` lies inside the box on all three axes. */
    predicate Contains(p: Vector3)
      reads this
    {
      min.LeAll(ExtVector3.FromVector(p)) && ExtVector3.FromVector(p).LeAll(max)
    }

    /** `Center`: `(min + max) * 0.5`. `None` where an axis adds opposite infinities (NaN).
        On a box with `min <= max` the center lies inside the box. */
    function Center(): (r: Option<ExtVector3>)
      reads this
      ensures r.None? <==> min.x.Plus(max.x).None? || min.y.Plus(max.y).None? || min.z.Plus(max.z).None?
      ensures r.Some? && min.LeAll(max) ==> min.LeAll(r.value) && r.value.LeAll(max)
      ensures min.IsFinite() && max.IsFinite() ==>
        r == Some(ExtVector3(Fin((min.x.value + max.x.value) / 2.0),
                             Fin((min.y.value + max.y.value) / 2.0),
                             Fin((min.z.value + max.z.value) / 2.0)))
    {
      match (min.x.Plus(max.x), min.y.Plus(max.y), min.z.Plus(max.z))
      case (Some(sx), Some(sy), Some(sz)) => Some(ExtVector3(sx.Half(), sy.Half(), sz.Half()))
      case _ => None
    }

    /** `Extents` as written: each axis ASSIGNS `max.axis = min.axis` inside `Math.Abs(...)`,
        so the call collapses the box onto its `min` corner and returns `|min| * 0.5`. */
    method Extents() returns (e: ExtVector3)
      modifies this
      ensures min == old(min) && max == old(min)
      ensures e == ExtVector3(min.x.Abs().Half(), min.y.Abs().Half(), min.z.Abs().Half())
    {
      max := max.(x := min.x);
      var ex := max.x.Abs().Half();
      max := max.(y := min.y);
      var ey := max.y.Abs().Half();
      max := max.(z := min.z);
      var ez := max.z.Abs().Half();
      e := ExtVector3(ex, ey, ez);
    }

    /** The extents the method is meant to return: `|max - min| * 0.5` per axis, reading the
        box without changing it. `None` where an axis subtracts equal infinities (NaN). */
    function HalfExtents(): (r: Option<ExtVector3>)
      reads this
      ensures r.Some? ==> Fin(0.0).Le(r.value.x) && Fin(0.0).Le(r.value.y) && Fin(0.0).Le(r.value.z)
      ensures min.IsFinite() && max.IsFinite() ==> r.Some? && r.value.IsFinite()
    {
      match (max.x.Minus(min.x), max.y.Minus(min.y), max.z.Minus(min.z))
      case (Some(dx), Some(dy), Some(dz)) => Some(ExtVector3(dx.Abs().Half(), dy.Abs().Half(), dz.Abs().Half()))
      case _ => None
    }

    /** `Corners` as written: `new List<Vector3>(4)` has capacity 4 but no elements, so the
        first indexer write `corners[0] = min` already throws. */
    function Corners(): (r: Result<seq<ExtVector3>, ListError>)
      reads this
      ensures r == Failure(ArgumentOutOfRange)
    {
      var corners: seq<ExtVector3> := [];
      SetItems(corners, [(0, min), (1, ExtVector3(min.x, max.y, min.z)), (2, max), (3, ExtVector3(max.x, min.y, max.z))])
    }

    /** The corners the method is meant to return, in its order: `min`, `(min.x, max.y)`,
        `max`, `(max.x, min.y)` (z follows the corner's own bound). Consecutive corners, and
        the last and the first, share an x or a y: they trace the rectangle's outline. On a
        box with `min <= max` every corner lies inside the box. */
    function CornerPoints(): (r: seq<ExtVector3>)
      reads this
      ensures |r| == 4 && r[0] == min && r[2] == max
      ensures r[0].x == r[1].x && r[1].y == r[2].y && r[2].x == r[3].x && r[3].y == r[0].y
      ensures min.LeAll(max) ==> forall i :: 0 <= i < 4 ==> min.LeAll(r[i]) && r[i].LeAll(max)
    {
      LtStrictTotalOrder(min.x, max.x, min.x);
      LtStrictTotalOrder(min.y, max.y, min.y);
      LtStrictTotalOrder(min.z, max.z, min.z);
      [min, ExtVector3(min.x, max.y, min.z), max, ExtVector3(max.x, min.y, max.z)]
    }
  }

  // ---------------------------------------------------------------------------------------
  // AABB properties

  /** The default box overlaps every point. */
  lemma DefaultBoxOverlapsEverything(box: AABB, p: Vector3)
    requires box.min == ExtVector3.Uniform(NegInf) && box.max == ExtVector3.Uniform(PosInf)
    ensures box.Overlaps(p)
    ensures box.Contains(p)
  {
  }

  /** A box fitted on no points keeps the sentinels (`min = +inf`, `max = -inf`): it overlaps
      no point, and it overlaps another box only when that box is unbounded both ways on
      x and on y. In particular it overlaps no box with finite bounds. */
  lemma EmptyFitOverlapsNothing(box: AABB, p: Vector3, other: AABB)
    requires box.min == LowerFold([]) && box.max == UpperFold([])
    ensures !box.Overlaps(p)
    ensures box.OverlapsBox(other) <==>
      other.min.x == NegInf && other.min.y == NegInf && other.max.x == PosInf && other.max.y == PosInf
    ensures other.min.IsFinite() || other.max.IsFinite() ==> !box.OverlapsBox(other)
  {
  }

  /** A box fitted on points overlaps every one of them. */
  lemma FitOverlapsEveryPoint(box: AABB, points: seq<Vector3>, k: nat)
    requires box.min == LowerFold(points) && box.max == UpperFold(points)
    requires k < |points|
    ensures box.Overlaps(points[k]) && box.Contains(points[k])
  {
    FoldsBoundPoints(points, k);
  }

  /** `Overlaps(Vector3)` ignores z. */
  lemma OverlapsIgnoresZ(box: AABB, p: Vector3, z: real)
    ensures box.Overlaps(p) == box.Overlaps(p.(z := z))
  {
  }

  /** Box overlap is symmetric. */
  lemma OverlapsBoxSymmetric(a: AABB, b: AABB)
    ensures a.OverlapsBox(b) == b.OverlapsBox(a)
  {
  }

  /** On a box with `min <= max`, clamping a point that is already the closest point gives it
      back: `ClosestPoint` is idempotent. */
  lemma ClosestPointIdempotent(box: AABB, p: Vector3)
    requires box.min.LeAll(box.max)
    requires box.ClosestPoint(p).IsFinite()
    ensures box.ClosestPoint(box.ClosestPoint(p).ToVector()) == box.ClosestPoint(p)
  {
    var q := box.ClosestPoint(p).ToVector();
    assert box.Contains(q);
  }

  /** On a finite box with `min <= max`, the center and the corrected half-extents give back
      the bounds: `center - half == min` and `center + half == max` on every axis. */
  lemma CenterAndHalfExtentsRecoverBounds(box: AABB)
    requires box.min.IsFinite() && box.max.IsFinite() && box.min.LeAll(box.max)
    ensures box.Center().Some? && box.HalfExtents().Some?
    ensures box.Center().value.IsFinite() && box.HalfExtents().value.IsFinite()
    ensures box.Center().value.ToVector().Sub(box.HalfExtents().value.ToVector()) == box.min.ToVector()
    ensures box.Center().value.ToVector().Add(box.HalfExtents().value.ToVector()) == box.max.ToVector()
  {
  }

  /** As written, `Extents` on the box from `(0,0,0)` to `(10,10,10)` returns `(0,0,0)`
      instead of `(5,5,5)`, and afterwards the box no longer overlaps its own center. The
      corrected `HalfExtents` returns `(5,5,5)` and leaves the box alone. */
  method ExtentsDefect() returns (written: ExtVector3, intended: Option<ExtVector3>, centerInside: bool)
    ensures written == ExtVector3.Uniform(Fin(0.0))
    ensures intended == Some(ExtVector3.Uniform(Fin(5.0)))
    ensures !centerInside
  {
    var box := new AABB.FromBounds(Vector3(0.0, 0.0, 0.0), Vector3(10.0, 10.0, 10.0));
    intended := box.HalfExtents();
    written := box.Extents();
    centerInside := box.Overlaps(Vector3(5.0, 5.0, 5.0));
  }

  /** The two boxes of the overlap example: `[0,10]^2` meets `[5,15]^2` but not `[20,30]^2`. */
  method BoxOverlapExample() returns (ab: bool, ac: bool)
    ensures ab && !ac
  {
    var a := new AABB.FromBounds(Vector3(0.0, 0.0, 0.0), Vector3(10.0, 10.0, 0.0));
    var b := new AABB.FromBounds(Vector3(5.0, 5.0, 0.0), Vector3(15.0, 15.0, 0.0));
    var c := new AABB.FromBounds(Vector3(20.0, 20.0, 0.0), Vector3(30.0, 30.0, 0.0));
    ab := a.OverlapsBox(b);
    ac := a.OverlapsBox(c);
  }

  // ---------------------------------------------------------------------------------------
  // Sphere

  class Sphere {
    var center: Vector3
    var radius: real

    /** `Sphere()`: both fields keep their default, zero. */
    constructor ()
      ensures center == Vector3(0.0, 0.0, 0.0) && radius == 0.0
    {
      center := Vector3(0.0, 0.0, 0.0);
      radius := 0.0;
    }

    /** `Sphere(p, r)`: stores both as given. */
    constructor FromCenter(p: Vector3, r: real)
      ensures center == p && radius == r
    {
      center := p;
      radius := r;
    }

    /** `Overlaps(Vector3)`: squared distance against squared radius, boundary included.
        Swapping the point and the center does not change the answer. */
    function Overlaps(p: Vector3): (r: bool)
      reads this
      ensures r <==> center.Sub(p).MagnitudeSqr() <= radius * radius
    {
      var toPoint := p.Sub(center);
      toPoint.MagnitudeSqr() <= radius * radius
    }

    /** `Overlaps(Sphere)`: squared distance of the centers against the squared sum of radii,
        boundary included; measuring from either center gives the same answer. A sphere of
        radius zero is tested exactly like its center point. */
    function OverlapsSphere(other: Sphere): (r: bool)
      reads this, other
      ensures r <==> center.Sub(other.center).MagnitudeSqr()
                     <= (radius + other.radius) * (radius + other.radius)
      ensures other.radius == 0.0 ==> (r <==> Overlaps(other.center))
    {
      var diff := other.center.Sub(center);
      var sum := radius + other.radius;
      assert other.radius == 0.0 ==> sum * sum == radius * radius;
      diff.MagnitudeSqr() <= sum * sum
    }

    /** `Overlaps(AABB)`: the squared distance from the center to the box's closest point
        against the squared radius. An infinite component of the closest point makes the
        float dot product `+inf`, which is never `<=` a finite square. So the box is hit
        exactly when its closest point is finite and lies within the radius. */
    function OverlapsBox(box: AABB): (r: bool)
      reads this, box
      ensures r <==> box.ClosestPoint(center).IsFinite() && Overlaps(box.ClosestPoint(center).ToVector())
    {
      var closest := box.ClosestPoint(center);
      if closest.IsFinite() then
        var diff := closest.ToVector().Sub(center);
        diff.DotProduct(diff) <= radius * radius
      else
        false
    }

    /** `ClosestPoint` for a point within the radius: the point itself. */
    function ClosestPoint(p: Vector3): (r: Vector3)
      reads this
      requires Overlaps(p)
      ensures r == p
    {
      var toPoint := p.Sub(center);
      center.Add(toPoint)
    }
  }

  // ---------------------------------------------------------------------------------------
  // Sphere properties

  /** Sphere overlap is symmetric. */
  lemma OverlapsSphereSymmetric(a: Sphere, b: Sphere)
    ensures a.OverlapsSphere(b) == b.OverlapsSphere(a)
  {
    var d, e := b.center.Sub(a.center), a.center.Sub(b.center);
    assert e == d.Times(-1.0);
    assert e.MagnitudeSqr() == d.MagnitudeSqr() by {
      assert e.x * e.x == d.x * d.x && e.y * e.y == d.y * d.y && e.z * e.z == d.z * d.z;
    }
  }

  /** With non-negative radii, two spheres that pass the overlap test share a point. */
  lemma OverlappingSpheresShare(a: Sphere, b: Sphere)
    requires a.radius >= 0.0 && b.radius >= 0.0
    requires a.OverlapsSphere(b)
    ensures exists p :: a.Overlaps(p) && b.Overlaps(p)
  {
    var c1, c2, r1, r2 := a.center, b.center, a.radius, b.radius;
    var p := MeetingPoint(c1, c2, r1, r2);
    assert a.Overlaps(p) == (p.Sub(c1).MagnitudeSqr() <= r1 * r1);
    assert b.Overlaps(p) == (p.Sub(c2).MagnitudeSqr() <= r2 * r2);
  }

  /** The point on the segment between `c1` and `c2` that divides it in the ratio `r1 : r2`
      (`c1` itself when both are zero) lies within `r1` of `c1` and within `r2` of `c2`
      whenever the centers are at most `r1 + r2` apart. */
  lemma MeetingPoint(c1: Vector3, c2: Vector3, r1: real, r2: real) returns (p: Vector3)
    requires r1 >= 0.0 && r2 >= 0.0
    requires c1.Sub(c2).MagnitudeSqr() <= (r1 + r2) * (r1 + r2)
    ensures p.Sub(c1).MagnitudeSqr() <= r1 * r1 && p.Sub(c2).MagnitudeSqr() <= r2 * r2
  {
    var e := c1.Sub(c2);
    if r1 + r2 == 0.0 {
      p := c1;
      ZeroRadii(e.MagnitudeSqr(), r1, r2);
      assert p.Sub(c1) == Vector3(0.0, 0.0, 0.0) && p.Sub(c2) == e;
    } else {
      var t := r2 / (r1 + r2);
      p := c2.Add(e.Times(t));
      Offsets(c1, c2, t);
      ScaledMagnitude(e, t);
      ScaledMagnitude(e, t - 1.0);
      ShareBounds(e.MagnitudeSqr(), r1, r2, t);
    }
  }

  /** Real arithmetic behind `MeetingPoint` when both radii are zero. */
  lemma ZeroRadii(m: real, r1: real, r2: real)
    requires r1 >= 0.0 && r2 >= 0.0 && r1 + r2 == 0.0 && m <= (r1 + r2) * (r1 + r2)
    ensures 0.0 <= r1 * r1 && m <= r2 * r2
  {
    assert r1 == 0.0 && r2 == 0.0;
  }

  /** The point `c2 + t (c1 - c2)` is `t (c1 - c2)` away from `c2` and `(t - 1) (c1 - c2)`
      away from `c1`. */
  lemma Offsets(c1: Vector3, c2: Vector3, t: real)
    ensures c2.Add(c1.Sub(c2).Times(t)).Sub(c2) == c1.Sub(c2).Times(t)
    ensures c2.Add(c1.Sub(c2).Times(t)).Sub(c1) == c1.Sub(c2).Times(t - 1.0)
  {
    var e := c1.Sub(c2);
    assert e.x * (t - 1.0) == e.x * t - e.x;
    assert e.y * (t - 1.0) == e.y * t - e.y;
    assert e.z * (t - 1.0) == e.z * t - e.z;
  }

  /** Real arithmetic behind `MeetingPoint`: with `t = r2 / (r1 + r2)`, scaling a squared
      length of at most `(r1 + r2)^2` by `t^2` gives at most `r2^2`, and by `(t - 1)^2` at
      most `r1^2`. */
  lemma ShareBounds(m: real, r1: real, r2: real, t: real)
    requires r1 + r2 > 0.0 && m <= (r1 + r2) * (r1 + r2) && t == r2 / (r1 + r2)
    ensures t * t * m <= r2 * r2 && (t - 1.0) * (t - 1.0) * m <= r1 * r1
  {
    var s := r1 + r2;
    assert t * s == r2 && (t - 1.0) * s == -r1;
    ScaledBound(m, s, r2, t);
    ScaledBound(m, s, r1, t - 1.0);
  }

  /** Real arithmetic behind `ShareBounds`. */
  lemma ScaledBound(m: real, s: real, r: real, t: real)
    requires s > 0.0 && m <= s * s && (t * s == r || t * s == -r)
    ensures t * t * m <= r * r
  {
    var u := t * s;
    assert u * u == r * r;
    assert t * t * m <= t * t * (s * s);
    assert t * t * (s * s) == u * u;
  }

  /** Conversely, two spheres with non-negative radii that share a point pass the overlap
      test. */
  lemma SharedPointOverlaps(a: Sphere, b: Sphere, p: Vector3)
    requires a.radius >= 0.0 && b.radius >= 0.0
    requires a.Overlaps(p) && b.Overlaps(p)
    ensures a.OverlapsSphere(b)
  {
    var u, v := a.center.Sub(p), p.Sub(b.center);
    assert v.MagnitudeSqr() <= b.radius * b.radius;
    TriangleSquared(u, v, a.radius, b.radius);
    assert u.Add(v) == a.center.Sub(b.center);
  }

  /** A sphere always overlaps its own center. */
  lemma SphereOverlapsCenter(s: Sphere)
    ensures s.Overlaps(s.center)
  {
    assert s.radius * s.radius >= 0.0;
  }

  /** `0 <= a <= b` implies `a*a <= b*b`. */
  lemma SquareMonotone(a: real, b: real)
    requires 0.0 <= a <= b
    ensures a * a <= b * b
  {
    assert a * a <= a * b by {
      assert a * (b - a) >= 0.0;
    }
    assert a * b <= b * b by {
      assert b * (b - a) >= 0.0;
    }
  }

  /** On one axis: clamping `c` into bounds that hold the coordinate `q` gives a finite
      value `m`. */
  lemma ClampIsFinite(c: real, lo: ExtReal, hi: ExtReal, q: real)
    requires lo.Le(Fin(q)) && Fin(q).Le(hi)
    ensures Fin(c).Max(lo).Min(hi).Fin?
  {
    LtStrictTotalOrder(lo, Fin(q), hi);
  }

  /** On one axis: the clamped value `m` is no farther from `c` than any `q` within the bounds;
      `d` and `e` are the two offsets from `c`. */
  lemma ClampIsNearest(c: real, lo: ExtReal, hi: ExtReal, q: real, m: real, d: real, e: real)
    requires lo.Le(Fin(q)) && Fin(q).Le(hi)
    requires Fin(m) == Fin(c).Max(lo).Min(hi)
    requires d == m - c && e == q - c
    ensures d * d <= e * e
  {
    LtStrictTotalOrder(lo, Fin(q), hi);
    if lo.Fin? && c < lo.value {
      assert m == lo.value;
      SquareMonotone(d, e);
    } else if hi.Fin? && hi.value < c {
      assert m == hi.value;
      SquareMonotone(-d, -e);
      assert (-d) * (-d) == d * d && (-e) * (-e) == e * e;
    } else {
      assert m == c;
    }
  }

  /** Clamping `c` into bounds that hold `q` gives a finite point no farther from `c` than
      `q` is, measured by squared distance. */
  lemma ClampIsNearestPoint(c: Vector3, lo: ExtVector3, hi: ExtVector3, q: Vector3)
    requires lo.LeAll(ExtVector3.FromVector(q)) && ExtVector3.FromVector(q).LeAll(hi)
    ensures ExtVector3.FromVector(c).Clamp(lo, hi).IsFinite()
    ensures var d := ExtVector3.FromVector(c).Clamp(lo, hi).ToVector().Sub(c);
            d.DotProduct(d) <= q.Sub(c).MagnitudeSqr()
  {
    ClampAxes(c, lo, hi, q);
    var d, e := ExtVector3.FromVector(c).Clamp(lo, hi).ToVector().Sub(c), q.Sub(c);
    SquaredLengthMonotone(d, e);
  }

  /** `ClampIsNearestPoint` axis by axis: the clamped point is finite, and on each axis its
      offset from `c` is no longer than that of `q`. */
  lemma ClampAxes(c: Vector3, lo: ExtVector3, hi: ExtVector3, q: Vector3)
    requires lo.LeAll(ExtVector3.FromVector(q)) && ExtVector3.FromVector(q).LeAll(hi)
    ensures ExtVector3.FromVector(c).Clamp(lo, hi).IsFinite()
    ensures var d, e := ExtVector3.FromVector(c).Clamp(lo, hi).ToVector().Sub(c), q.Sub(c);
            d.x * d.x <= e.x * e.x && d.y * d.y <= e.y * e.y && d.z * d.z <= e.z * e.z
  {
    var m := ExtVector3.FromVector(c).Clamp(lo, hi);
    assert m.x == Fin(c.x).Max(lo.x).Min(hi.x);
    assert m.y == Fin(c.y).Max(lo.y).Min(hi.y);
    assert m.z == Fin(c.z).Max(lo.z).Min(hi.z);
    ClampIsFinite(c.x, lo.x, hi.x, q.x);
    ClampIsFinite(c.y, lo.y, hi.y, q.y);
    ClampIsFinite(c.z, lo.z, hi.z, q.z);
    var d, e := m.ToVector().Sub(c), q.Sub(c);
    ClampIsNearest(c.x, lo.x, hi.x, q.x, m.x.value, d.x, e.x);
    ClampIsNearest(c.y, lo.y, hi.y, q.y, m.y.value, d.y, e.y);
    ClampIsNearest(c.z, lo.z, hi.z, q.z, m.z.value, d.z, e.z);
  }

  /** A vector no longer than another on every axis is no longer overall. */
  lemma SquaredLengthMonotone(d: Vector3, e: Vector3)
    requires d.x * d.x <= e.x * e.x && d.y * d.y <= e.y * e.y && d.z * d.z <= e.z * e.z
    ensures d.DotProduct(d) <= e.MagnitudeSqr()
  {
  }

  /** `Overlaps(AABB)` is sound: on a box with `min <= max`, an overlap comes with a point of
      the box (the closest point) within the radius. */
  lemma OverlapsBoxHasWitness(s: Sphere, box: AABB)
    requires box.min.LeAll(box.max)
    requires s.OverlapsBox(box)
    ensures box.ClosestPoint(s.center).IsFinite()
    ensures box.Contains(box.ClosestPoint(s.center).ToVector())
    ensures s.Overlaps(box.ClosestPoint(s.center).ToVector())
  {
  }

  /** `Overlaps(AABB)` is complete: if any point of the box lies within the radius, the test
      reports an overlap, because the closest point is nearer. */
  lemma OverlapsBoxComplete(s: Sphere, box: AABB, q: Vector3)
    requires box.Contains(q) && s.Overlaps(q)
    ensures s.OverlapsBox(box)
  {
    ClampIsNearestPoint(s.center, box.min, box.max, q);
  }

  /** On a box shrunk to the single point `p`, the box test and the point test agree. */
  lemma PointBoxAgreesWithPoint(s: Sphere, box: AABB, p: Vector3)
    requires box.min == ExtVector3.FromVector(p) && box.max == ExtVector3.FromVector(p)
    ensures s.OverlapsBox(box) == s.Overlaps(p)
  {
    assert box.Contains(p);
  }

  /** The sphere example: radius 5 at the origin holds `(3,4,0)`, on its boundary. */
  method SphereBoundaryExample() returns (hit: bool)
    ensures hit
  {
    var s := new Sphere.FromCenter(Vector3(0.0, 0.0, 0.0), 5.0);
    assert Vector3(3.0, 4.0, 0.0).Sub(s.center) == Vector3(3.0, 4.0, 0.0);
    hit := s.Overlaps(Vector3(3.0, 4.0, 0.0));
  }
}
