# MathForGamesAssessment: math kernel, collision primitives and scene hierarchy

A Dafny model of the three core files of the tank game's math library:

- **`MathFunctions.cs`**: the `Vector2`/`Vector3`/`Vector4` value types and the
  `Matrix2`/`Matrix3`/`Matrix4` column-major transforms. They are modelled in `vectors.dfy` and
  `matrices.dfy`.
- **`Collision.cs`**: the `AABB` box and the `Sphere` collider. They are modelled in
  `collision.dfy`, with the infinite bounds of a box in `ext_real.dfy`.
- **`SceneObject.cs`**: the scene hierarchy. Each node has a parent, an ordered child list, and
  a local and a cached global `Matrix3`. It is modelled in `forest.dfy` (the shape of the
  hierarchy) and `scene.dfy` (the operations).

`options.dfy` holds the `Option` and `Result` wrappers, and `ListError`, the model of
`ArgumentOutOfRangeException`.

How the C# code is represented:

- **Numbers.** A C# `float` is an exact `real`, so rounding is not modelled. The bounds of an `AABB` can be
  `float.PositiveInfinity` or `float.NegativeInfinity`, so they are extended reals (`ExtReal`). An operation
  that would produce NaN (`inf + -inf`, `inf - inf`) returns `None`.
- **Structs.** The vector and matrix structs are datatypes. A mutating builder such as
  `localTransform.SetTranslation(x, y)`, or the private `Set`, replaces the struct's value. It is
  modelled as a function from the value before the call to the value after it.
- **Angles.** `SetRotateZ(radians)` and `RotateZ(radians)` take `c = cos(radians)` and
  `s = sin(radians)` as parameters.
- **`Vector3.Min`, `Max` and `Clamp`.** They are called by `Collision.cs`, but `MathFunctions.cs` does not define
  them. They are modelled componentwise, as `System.Numerics.Vector3` defines them. `Min` and `Max` use a strict
  comparison.
- **`AABB` and `Sphere`.** They are classes with fields. `Fit` and `Extents` assign those fields and are
  methods. The queries are functions that read the object.
- **The scene hierarchy.** It is one `Scene` object that maps node ids to the fields of
  `SceneObject`: `parent`, `children`, `local` and `global`. Each `SceneObject` method is a
  `Scene` method that takes the id of the node it is called on. The `LocalTransform`,
  `GlobalTransform` and `Parent` getters are lookups in those maps. A ghost rank map shows
  that the child links form a forest.
  - The C# code never checks that they do: `AddChild` only asserts that the new child has no parent.
  - So the recursive traversals (`UpdateTransform`, `Update`, `Draw`) require a ranking.
  - `AddChild` states when the ranking survives.
  - `MutualAttach` shows two nodes attached to each other. Both attachments pass the assertion and leave a
    cycle.
- **Traversals.** `UpdateTransform` is proved against `Recomputed`, a specification of the
  recursion over the children in list order. `RecomputedMeaning` proves what
  the recomputation means: nothing outside the subtree changes, and every node in the subtree
  gets its parent's global transform times its own local one. From this, each of the six transform setters
  is proved to preserve consistency: if every global transform agreed with its parent before the
  call, every one agrees after it.

`Matrix3.Translate` and `Matrix4.Translate` add the offset to the translation cells. On an affine
matrix this is pre-multiplication by a translation: the offset is applied after the transform.
The model states this as a property; it is not a departure.

Where the code departs from what it evidently means, the model follows the code:

- **`Extents`** assigns `max` from `min` instead of subtracting.
- **`Corners`** writes into an empty list.
- **A new `SceneObject`** starts with the all-zero `new Matrix3()` as its local transform, not the identity.
- **`Matrix2 *`** has two defects. Its first column adds `lhs.m2 + rhs.m3` and `lhs.m4 + rhs.m3`
  where products are due. And its result goes through the row-reading constructor, so its terms pair
  the cells of the two transposes. Even with products in place of the sums it would compute
  `lhsᵀ rhsᵀ`, not `lhs rhs`.
- **`Matrix4.GetTransposed`** is documented to return the transpose, but it passes the cells back in
  their own order to a constructor that stores them as given: it returns the matrix unchanged.
  `Matrix4 *` depends on this. Its cells are already the column-major product before the call, so a
  real transpose there would return the transpose of the product.

Each of these is modelled as written and listed under Findings, next to a corrected
member. The corrected `Matrix4` transpose is a separate function, `Transposed`; `Matrix4 *` keeps
the call as written.

## Model

| member | source | states |
|---|---|---|
| Vectors.Vector2.MagnitudeSqr | ConsoleApp1/MathFunctions.cs:33-36 | the squared length is the vector's dot product with itself and is never negative |
| Vectors.Vector2.Sub | ConsoleApp1/MathFunctions.cs:131-135 | adding `rhs` back to `lhs - rhs` gives `lhs` |
| Vectors.Vector2.Times | ConsoleApp1/MathFunctions.cs:137-145 | `v * s` is the same vector as `s * v` |
| Vectors.Vector2.GetPerpendicular | ConsoleApp1/MathFunctions.cs:69-72 | the perpendicular is orthogonal to the vector, has the same squared length, and is a quarter turn counter-clockwise: the cross term `x * r.y - y * r.x` is the squared length |
| Vectors.Vector2.GetPerpendicularFacing | ConsoleApp1/MathFunctions.cs:78-85 | the result is orthogonal to the vector; facing left it is the right-facing perpendicular reversed, otherwise the right-facing one |
| Vectors.Vector3.MagnitudeSqr | ConsoleApp1/MathFunctions.cs:192-195 | the squared length is the dot product with itself and is never negative |
| Vectors.Vector3.Sub | ConsoleApp1/MathFunctions.cs:262-266 | adding `rhs` back to `lhs - rhs` gives `lhs` |
| Vectors.Vector3.Times | ConsoleApp1/MathFunctions.cs:268-276 | `v * s` is the same vector as `s * v` |
| Vectors.Vector3.CrossProduct | ConsoleApp1/MathFunctions.cs:295-301 | the cross product is orthogonal to both operands |
| Vectors.Vector4.Sub | ConsoleApp1/MathFunctions.cs:346-350 | adding `rhs` back to `lhs - rhs` gives `lhs` |
| Vectors.Vector4.Times | ConsoleApp1/MathFunctions.cs:352-360 | `v * s` is the same vector as `s * v` |
| Vectors.Vector4.Cross | ConsoleApp1/MathFunctions.cs:379-386 | `w` of the result is 0, its `xyz` part is the `Vector3` cross product of the operands' `xyz` parts, and it is orthogonal to both operands |
| Vectors.AddSubRoundTrip | ConsoleApp1/MathFunctions.cs:126-135 | for each vector type, subtracting `b` undoes adding `b` |
| Vectors.DotSymmetric | ConsoleApp1/MathFunctions.cs:158-161 | the dot product of each vector type is symmetric |
| Vectors.CrossAntiCommutes | ConsoleApp1/MathFunctions.cs:295-301 | swapping the operands of the cross product negates it |
| Matrices.Matrix2.Create | ConsoleApp1/MathFunctions.cs:401-405 | the constructor's arguments are read as rows: the built matrix sends `v` to `(M1 x + M2 y, M3 x + M4 y)` |
| Matrices.Matrix2.GetTransposed | ConsoleApp1/MathFunctions.cs:416-421 | applying the transpose dots `v` with each column of the original: the rows of the transpose are the original's columns |
| Matrices.Matrix2.SetScaled | ConsoleApp1/MathFunctions.cs:424-428 | the result scales x by `x` and y by `y`, whatever the matrix held before |
| Matrices.Matrix2.Mul | ConsoleApp1/MathFunctions.cs:497-502 | as written: the result equals `lhsᵀ rhsᵀ`, the product of the two transposes, exactly when each of the two sums `lhs.m2 + rhs.m3` and `lhs.m4 + rhs.m3` happens to equal its product |
| Matrices.Matrix2.Product | ConsoleApp1/MathFunctions.cs:497-502 | corrected: column `j` of the product is the left factor applied to column `j` of the right one |
| Matrices.Matrix2TransposeInvolution | ConsoleApp1/MathFunctions.cs:401-421 | a transpose swaps the two off-diagonal cells and keeps the diagonal, and transposing twice gives back the matrix |
| Matrices.Matrix2TransposedPairing | ConsoleApp1/MathFunctions.cs:497-502 | the pairing of transposed cells alone departs from the product: for `a = (0, 1, -1, 0)` and `b = (1, 0, 1, 1)` the first cell of `aᵀ bᵀ` is not that of `a b` |
| Matrices.Matrix2MulNotComposition | ConsoleApp1/MathFunctions.cs:497-502 | as written, `identity * identity` is not the identity, and applying the product differs from applying the factors in turn |
| Matrices.Matrix2ScaleShears | ConsoleApp1/MathFunctions.cs:436-442 | as written, scaling the identity by (2, 3) gives a shear that differs from `SetScaled(2, 3)` |
| Matrices.Matrix2ProductApply | ConsoleApp1/MathFunctions.cs:497-507 | the corrected product, applied to a vector, applies the right factor and then the left one |
| Matrices.Matrix2ProductLaws | ConsoleApp1/MathFunctions.cs:396-502 | the corrected product has `identity` as a two-sided unit and is associative |
| Matrices.Matrix3.GetTransposed | ConsoleApp1/MathFunctions.cs:541-547 | applying the transpose dots `v` with each column of the original |
| Matrices.Matrix3.SetScaled | ConsoleApp1/MathFunctions.cs:560-566 | the result scales each axis by its factor and carries no translation |
| Matrices.Matrix3.Scale | ConsoleApp1/MathFunctions.cs:574-580 | column j is multiplied by the j-th factor; the new matrix scales a vector first, then applies the old matrix |
| Matrices.Matrix3.SetRotateZ | ConsoleApp1/MathFunctions.cs:628-636 | the result rotates x and y by the angle whose cosine and sine are `c` and `s` and keeps z |
| Matrices.Matrix3.RotateZ | ConsoleApp1/MathFunctions.cs:638-643 | the new matrix rotates a vector first, then applies the old matrix |
| Matrices.Matrix3.SetTranslation | ConsoleApp1/MathFunctions.cs:659-662 | the homogeneous origin goes to `(x, y, 1)`, and the first two columns are unchanged |
| Matrices.Matrix3.Translate | ConsoleApp1/MathFunctions.cs:663-666 | the image of the homogeneous origin moves by `(x, y, 0)`, and the linear block and `m9` are unchanged |
| Matrices.Matrix3MulApply | ConsoleApp1/MathFunctions.cs:669-695 | applying `a * b` to `v` equals applying `b` and then `a`: the product composes transforms |
| Matrices.Matrix3MulApplyAll | ConsoleApp1/MathFunctions.cs:669-695 | the same composition law for every vector at once |
| Matrices.Matrix3Extensional | ConsoleApp1/MathFunctions.cs:690-695 | two matrices that agree on the three unit vectors are equal |
| Matrices.Matrix3IdentityUnit | ConsoleApp1/MathFunctions.cs:516 | `identity` is a left and right unit of `*` |
| Matrices.Matrix3MulAssoc | ConsoleApp1/MathFunctions.cs:669-688 | `(a * b) * c == a * (b * c)` |
| Matrices.Matrix3Transpose | ConsoleApp1/MathFunctions.cs:541-547 | the transpose swaps the mirrored cells, keeps the diagonal, undoes itself and reverses products |
| Matrices.Matrix3MulTransposed | ConsoleApp1/MathFunctions.cs:669-688 | the transpose of `a * b` is the transpose of `b` times the transpose of `a` |
| Matrices.Matrix3TranslateIsPreMultiply | ConsoleApp1/MathFunctions.cs:659-666 | on an affine matrix, `Translate(x, y)` equals a translation matrix times the matrix, and the result stays affine |
| Matrices.Matrix3RotateZPreservesLength | ConsoleApp1/MathFunctions.cs:628-636 | when `c² + s² = 1`, the rotation keeps every vector's squared length |
| Matrices.Matrix4.SetScaled | ConsoleApp1/MathFunctions.cs:749-755 | the result scales x, y and z by their factors and keeps w |
| Matrices.Matrix4.Scale | ConsoleApp1/MathFunctions.cs:764-770 | the new matrix scales a vector first, then applies the old matrix |
| Matrices.Matrix4.SetTranslation | ConsoleApp1/MathFunctions.cs:848-851 | the homogeneous origin goes to `(x, y, z, 1)`, and the other twelve cells are unchanged |
| Matrices.Matrix4.Translate | ConsoleApp1/MathFunctions.cs:852-855 | the image of the homogeneous origin moves by `(x, y, z, 0)`, and only `m13..m15` change |
| Matrices.Matrix4.GetTransposed | ConsoleApp1/MathFunctions.cs:728-735 | as written, `GetTransposed` returns the matrix unchanged |
| Matrices.Matrix4TransposeDefect | ConsoleApp1/MathFunctions.cs:725-735 | as written: on the translation by `(1, 0, 0)`, `GetTransposed` differs from the transpose |
| Matrices.Matrix4TransposedColumns | ConsoleApp1/MathFunctions.cs:725-727 | corrected: applied to the `j`-th unit vector, the transpose gives row `j` of the matrix, so its columns are the matrix's rows |
| Matrices.Matrix4TransposedInvolution | ConsoleApp1/MathFunctions.cs:725-727 | corrected: transposing twice gives back the matrix, and the identity is its own transpose |
| Matrices.Matrix4TransposedProduct | ConsoleApp1/MathFunctions.cs:725-727 | corrected: the transpose of `a * b` is the transpose of `b` times the transpose of `a` |
| Matrices.Matrix4MulApply | ConsoleApp1/MathFunctions.cs:858-893 | applying `a * b` to `v` equals applying `b` and then `a` |
| Matrices.Matrix4MulApplyAll | ConsoleApp1/MathFunctions.cs:858-893 | the same composition law for every vector at once |
| Matrices.Matrix4Extensional | ConsoleApp1/MathFunctions.cs:886-893 | two matrices that agree on the four unit vectors are equal |
| Matrices.Matrix4IdentityUnit | ConsoleApp1/MathFunctions.cs:704 | `identity` is a left and right unit of `*` |
| Matrices.Matrix4MulAssoc | ConsoleApp1/MathFunctions.cs:858-885 | `(a * b) * c == a * (b * c)` |
| ExtendedReals.ExtReal.Min | ConsoleApp1/Collision.cs:34 | the result is one of the two operands and is at or below both |
| ExtendedReals.ExtReal.Max | ConsoleApp1/Collision.cs:35 | the result is one of the two operands and is at or above both |
| ExtendedReals.ExtReal.Abs | ConsoleApp1/Collision.cs:82 | a finite value loses its sign, and both infinities become `+inf` |
| ExtendedReals.ExtReal.Half | ConsoleApp1/Collision.cs:77 | a finite value is halved, and an infinity stays the same infinity |
| ExtendedReals.ExtReal.Plus | ConsoleApp1/Collision.cs:77 | the sum is NaN (`None`) exactly for opposite infinities; finite values add; otherwise the infinite operand wins |
| ExtendedReals.ExtReal.Minus | ConsoleApp1/Collision.cs:82 | the difference is NaN (`None`) exactly for equal infinities; finite values subtract; otherwise an infinite left operand wins, and a finite one gives the opposite of the right infinity |
| ExtendedReals.LtStrictTotalOrder | ConsoleApp1/Collision.cs:61 | float `<` on non-NaN values is irreflexive, asymmetric, transitive and total, and `<=` is its complement reversed |
| ExtendedReals.ExtVector3.Min | ConsoleApp1/Collision.cs:34 | on every axis the result is one of the two operands' components and is at or below both |
| ExtendedReals.ExtVector3.Max | ConsoleApp1/Collision.cs:35 | on every axis the result is one of the two operands' components and is at or above both |
| ExtendedReals.ExtVector3.Clamp | ConsoleApp1/Collision.cs:71 | the clamped vector is at or below `hi`, and when `lo <= hi` it is at or above `lo` |
| Collision.AABB.constructor | ConsoleApp1/Collision.cs:8-14 | `AABB()` starts unbounded: `min` is `-inf` and `max` is `+inf` on every axis |
| Collision.AABB.FromBounds | ConsoleApp1/Collision.cs:16-20 | `AABB(min, max)` stores the two bounds as given, unchecked |
| Collision.AABB.Fit | ConsoleApp1/Collision.cs:26-37 | after the call, `min` and `max` are the componentwise folds of `Min` and `Max` over the points, starting from the `+inf` and `-inf` sentinels |
| Collision.AABB.FitArray | ConsoleApp1/Collision.cs:43-54 | the same fold over the array's elements |
| Collision.FoldsBoundPoints | ConsoleApp1/Collision.cs:26-37 | every point lies between the two folds on every axis |
| Collision.FoldsAttained | ConsoleApp1/Collision.cs:26-37 | for non-empty points each fold is finite on every axis and equals some point's coordinate |
| Collision.FitIsExact | ConsoleApp1/Collision.cs:26-37 | after fitting non-empty points, each bound is finite, attained by a point, and bounds every point |
| Collision.AABB.Overlaps | ConsoleApp1/Collision.cs:59-62 | a point overlaps exactly when it lies within `[min, max]` on x and y, boundaries included |
| Collision.AABB.OverlapsBox | ConsoleApp1/Collision.cs:64-67 | two boxes overlap exactly when their x intervals meet and their y intervals meet |
| Collision.AABB.ClosestPoint | ConsoleApp1/Collision.cs:69-72 | the closest point never exceeds `max`, is at or above `min` on a box with `min <= max`, and is the point itself when the point is inside the box |
| Collision.AABB.Center | ConsoleApp1/Collision.cs:75-78 | the center is NaN exactly when an axis adds opposite infinities, lies inside a box with `min <= max`, and is the midpoint on a finite box |
| Collision.AABB.Extents | ConsoleApp1/Collision.cs:80-83 | as written: afterwards `max` equals the old `min` and `min` is unchanged, and the result is half of `abs(min)` per axis |
| Collision.AABB.HalfExtents | ConsoleApp1/Collision.cs:80-83 | corrected: half the width per axis, never negative, finite on a finite box, computed without changing the box |
| Collision.SetItem | ConsoleApp1/Collision.cs:88 | a `List` indexer write succeeds exactly for an index in `[0, Count)`, keeps the length and stores the value |
| Collision.SetItems | ConsoleApp1/Collision.cs:87-91 | a run of indexer writes succeeds exactly when every index is in range, and fails with `ArgumentOutOfRangeException` otherwise; on success the length is kept, an unwritten index keeps its item, and a written index holds the last value written to it |
| Collision.AABB.Corners | ConsoleApp1/Collision.cs:85-93 | as written: the method always throws `ArgumentOutOfRangeException` |
| Collision.AABB.CornerPoints | ConsoleApp1/Collision.cs:85-93 | corrected: four corners in the order the method writes them, `min` first and `max` third, each sharing an x or a y with the next; on a box with `min <= max` every corner is inside the box |
| Collision.DefaultBoxOverlapsEverything | ConsoleApp1/Collision.cs:8-14 | the box made by `AABB()` overlaps and contains every point |
| Collision.EmptyFitOverlapsNothing | ConsoleApp1/Collision.cs:26-37 | a box fitted on no points overlaps no point, and it overlaps a box only when that box is unbounded both ways on x and on y |
| Collision.FitOverlapsEveryPoint | ConsoleApp1/Collision.cs:26-62 | a box fitted on some points overlaps and contains each of them |
| Collision.OverlapsIgnoresZ | ConsoleApp1/Collision.cs:59-62 | the point test does not depend on z |
| Collision.OverlapsBoxSymmetric | ConsoleApp1/Collision.cs:64-67 | box overlap is symmetric |
| Collision.ClosestPointIdempotent | ConsoleApp1/Collision.cs:69-72 | clamping the closest point again returns it unchanged |
| Collision.CenterAndHalfExtentsRecoverBounds | ConsoleApp1/Collision.cs:75-83 | on a finite box, center minus the half-extents is `min` and center plus the half-extents is `max` |
| Collision.ExtentsDefect | ConsoleApp1/Collision.cs:80-83 | on the box `(0,0,0)..(10,10,10)`, `Extents` returns `(0,0,0)` where `(5,5,5)` is due, and afterwards the box no longer overlaps its own center |
| Collision.BoxOverlapExample | ConsoleApp1/Collision.cs:64-67 | `[0,10]²` overlaps `[5,15]²` and does not overlap `[20,30]²` |
| Collision.Sphere.constructor | ConsoleApp1/Collision.cs:101-104 | `Sphere()` has its center at the origin and radius zero |
| Collision.Sphere.FromCenter | ConsoleApp1/Collision.cs:106-110 | `Sphere(p, r)` stores the center and the radius as given |
| Collision.Sphere.Overlaps | ConsoleApp1/Collision.cs:148-152 | a point overlaps exactly when its squared distance to the center is at most the squared radius |
| Collision.Sphere.OverlapsSphere | ConsoleApp1/Collision.cs:154-159 | the spheres overlap exactly when the squared distance between the centers, measured from either one, is at most the squared sum of the radii; against a sphere of radius zero the test is the point test on its center |
| Collision.Sphere.OverlapsBox | ConsoleApp1/Collision.cs:161-165 | the sphere overlaps the box exactly when the box's closest point to the center is finite and within the radius |
| Collision.Sphere.ClosestPoint | ConsoleApp1/Collision.cs:167-178 | for a point within the radius, the closest point is the point itself |
| Collision.OverlapsSphereSymmetric | ConsoleApp1/Collision.cs:154-159 | sphere-sphere overlap is symmetric |
| Collision.OverlappingSpheresShare | ConsoleApp1/Collision.cs:148-159 | with non-negative radii, two spheres that pass the overlap test have a point in common |
| Collision.SharedPointOverlaps | ConsoleApp1/Collision.cs:148-159 | with non-negative radii, two spheres that have a point in common pass the overlap test |
| Collision.SphereOverlapsCenter | ConsoleApp1/Collision.cs:148-152 | a sphere overlaps its own center |
| Collision.ClampIsNearestPoint | ConsoleApp1/Collision.cs:69-72 | clamping into a box that holds `q` gives a finite point that is no farther than `q` from the clamped vector |
| Collision.OverlapsBoxHasWitness | ConsoleApp1/Collision.cs:161-165 | soundness: on a box with `min <= max`, a sphere-box overlap comes with a point of the box within the radius |
| Collision.OverlapsBoxComplete | ConsoleApp1/Collision.cs:161-165 | completeness: if any point of the box lies within the radius, the sphere-box test reports an overlap |
| Collision.PointBoxAgreesWithPoint | ConsoleApp1/Collision.cs:148-165 | on a box shrunk to one point, the box test and the point test agree |
| Collision.SphereBoundaryExample | ConsoleApp1/Collision.cs:148-152 | a radius-5 sphere at the origin overlaps `(3,4,0)`, which is on its boundary |
| Forest.RemoveFirst | ConsoleApp1/SceneObject.cs:137 | `List.Remove`: the list is unchanged when the element is absent, and one shorter otherwise |
| Forest.RemoveFirstKeepsOrder | ConsoleApp1/SceneObject.cs:137 | when `x` first occurs at index `i`, the result is the list with position `i` cut out, the rest in order |
| Forest.RemoveFirstCounts | ConsoleApp1/SceneObject.cs:137 | removal takes exactly one occurrence of the element out of the list, and nothing else |
| Forest.RemoveFirstNoDup | ConsoleApp1/SceneObject.cs:135-141 | removing from a child list without repeats leaves a list without repeats that no longer holds the child |
| Forest.ChildCount | ConsoleApp1/SceneObject.cs:143-146 | a node's child list holds exactly the nodes whose parent is that node, each once |
| Forest.PreOrderNoDup | ConsoleApp1/SceneObject.cs:47-67 | the walk of `Update` and `Draw` visits each node of the subtree exactly once |
| Forest.AttachLinked | ConsoleApp1/SceneObject.cs:125-133 | attaching a parentless child keeps the parent links and child lists in agreement |
| Forest.AttachRanked | ConsoleApp1/SceneObject.cs:125-133 | attaching `c` under `p` keeps a forest a forest when `p` is not in the subtree of `c` |
| Forest.AttachKeepsForest | ConsoleApp1/SceneObject.cs:125-133 | the same, for the ranks the scene keeps |
| Forest.DetachLinked | ConsoleApp1/SceneObject.cs:135-141 | detaching a listed child keeps the parent links and child lists in agreement |
| Forest.DetachRanked | ConsoleApp1/SceneObject.cs:135-141 | detaching a child keeps a forest a forest |
| SceneGraph.Scene.constructor | ConsoleApp1/SceneObject.cs:11-15 | the empty scene is valid, acyclic and consistent |
| SceneGraph.Scene.NewNode | ConsoleApp1/SceneObject.cs:11-20 | `new SceneObject()`: a fresh node with no parent, no children and all-zero local and global transforms; the other nodes are unchanged, and validity, acyclicity and consistency are kept |
| SceneGraph.Scene.NewIdentityNode | ConsoleApp1/SceneObject.cs:11-20 | corrected: the same node with the identity as its local and global transform |
| SceneGraph.Scene.AddNode | ConsoleApp1/SceneObject.cs:11-20 | a fresh root with the given transform; nothing else changes, and validity, acyclicity and consistency are kept |
| SceneGraph.Scene.AddChild | ConsoleApp1/SceneObject.cs:125-133 | requires that the child has no parent; the child's parent becomes `p`, the child goes at the end of `p`'s list, no transform changes, and the hierarchy stays a forest when `p` is not in the child's subtree |
| SceneGraph.Scene.RemoveChild | ConsoleApp1/SceneObject.cs:135-141 | if `c` is listed under `p`, its first occurrence is removed and `c` loses its parent; otherwise nothing changes; validity and acyclicity are kept |
| SceneGraph.Scene.GetChildCount | ConsoleApp1/SceneObject.cs:143-146 | the count equals the number of nodes whose parent is `n` |
| SceneGraph.Scene.GetChild | ConsoleApp1/SceneObject.cs:148-151 | succeeds exactly for an index in range and returns the child at that index, a node whose parent is `n`; otherwise `ArgumentOutOfRangeException` |
| SceneGraph.Scene.UpdateTransform | ConsoleApp1/SceneObject.cs:69-84 | the new global transforms are the recursive recomputation `Recomputed` of the old ones under `n` |
| SceneGraph.RecomputedMeaning | ConsoleApp1/SceneObject.cs:69-84 | the recomputation changes no node outside the subtree of `n`, and leaves every node in it with its parent's global transform times its local one |
| SceneGraph.RecomputedOutside | ConsoleApp1/SceneObject.cs:69-84 | a node outside the subtree keeps its global transform |
| SceneGraph.RecomputedInside | ConsoleApp1/SceneObject.cs:69-84 | a node inside the subtree ends up consistent with its parent |
| SceneGraph.LocalChangeSettles | ConsoleApp1/SceneObject.cs:87-116 | after a local transform changes and its subtree is recomputed, the scene is still valid, nothing outside the subtree changes, and a consistent scene stays consistent |
| SceneGraph.OutsideStaysConsistent | ConsoleApp1/SceneObject.cs:87-116 | nodes outside the recomputed subtree are as consistent as before |
| SceneGraph.Scene.SetLocal | ConsoleApp1/SceneObject.cs:87-116 | replaces the local transform of `n` and retransforms the subtree of `n`; a consistent scene stays consistent |
| SceneGraph.Scene.SetPosition | ConsoleApp1/SceneObject.cs:87-91 | the local transform becomes its `SetTranslation(x, y)`, the subtree is retransformed, and consistency is kept |
| SceneGraph.Scene.SetRotate | ConsoleApp1/SceneObject.cs:92-96 | the local transform becomes its `SetRotateZ`, the subtree is retransformed, and consistency is kept |
| SceneGraph.Scene.SetScale | ConsoleApp1/SceneObject.cs:97-101 | the local transform becomes its `SetScaled(width, height, 1)`, the subtree is retransformed, and consistency is kept |
| SceneGraph.Scene.Translate | ConsoleApp1/SceneObject.cs:102-106 | the local transform becomes its `Translate(x, y)`, the subtree is retransformed, and consistency is kept |
| SceneGraph.Scene.Rotate | ConsoleApp1/SceneObject.cs:107-111 | the local transform becomes its `RotateZ`, the subtree is retransformed, and consistency is kept |
| SceneGraph.Scene.Scale | ConsoleApp1/SceneObject.cs:112-116 | the local transform becomes its `Scale(width, height, 1)`, the subtree is retransformed, and consistency is kept |
| SceneGraph.Scene.Update | ConsoleApp1/SceneObject.cs:47-56 | the hooks run in the pre-order of the subtree: the node first, then each child's subtree in list order |
| SceneGraph.Scene.Draw | ConsoleApp1/SceneObject.cs:58-67 | nodes are drawn in the same pre-order |
| SceneGraph.MutualAttach | ConsoleApp1/SceneObject.cs:125-133 | two fresh nodes attached to each other pass the parentless assertion both times and form a cycle, so the result is no forest |
| SceneGraph.TwoCycleUnranked | ConsoleApp1/SceneObject.cs:125-133 | two nodes listed as each other's child admit no ranking |
| SceneGraph.ZeroLocalDropsOffset | ConsoleApp1/SceneObject.cs:14 | starting from the zero matrix, composing two translation-only transforms forgets the second offset |
| SceneGraph.IdentityLocalAddsOffsets | ConsoleApp1/MathFunctions.cs:516 | starting from the identity, translation-only transforms compose by adding their offsets |
| SceneGraph.PositionedChild | ConsoleApp1/SceneObject.cs:14-15 | as written: a child positioned under a positioned root sits at the root's position, whatever its own position |
| SceneGraph.PositionedChildFromIdentity | ConsoleApp1/SceneObject.cs:69-91 | corrected: with identity local transforms, the child sits at the sum of the two positions |

## Left out

- Operations that need a square root or trigonometry: `Magnitude`, `Distance`, `Normalize`, `GetNormalized`, `AngleBetween`, the
  `Matrix2` rotations, `Matrix3.SetRotateX`/`SetRotateY` and their `Rotate` forms, `SetEuler`, and the `Matrix4`
  rotations. Their results are not exact reals. `SetRotateZ`/`RotateZ` are modelled with the cosine and sine as parameters.
- The division operators of the vectors: a zero divisor gives an infinity or NaN, which the real-valued vectors do not represent.
- The overloads taking a `Vector2`/`Vector3` instead of separate components (`SetScaled(v)`, `Scale(v)`). They pass the components on unchanged.
- `PrintValues`, `PrintMagnitude`, `PrintCels` and `ConvertedToRaylibV2`: console output and a Raylib type.
- `Sphere.Fit`: its radius is a `Distance`, so a square root.
- Collision.Sphere.ClosestPoint: models only points within the radius, because the outside branch calls `GetNormalized`, a square root.
- The `SceneObject` finalizer: it runs on garbage collection, and its unlink step is `RemoveChild`, which is modelled.
- `OnUpdate` and `OnDraw` are empty in `SceneObject`. `Update` and `Draw` return the order in which the hooks run instead of running
  subclass code, and `deltaTime` is passed through unused.
- The `Debug.Assert` in `AddChild` becomes a precondition. In a release build the assertion is skipped, and that behaviour is not modelled.
- `AddChild` and `RemoveChild` do not refresh any global transform. The model says so; it does not add a refresh.
- SceneGraph.Scene.UpdateTransform: requires a ranked, covered hierarchy, because on a cycle the C# recursion does not terminate.
  `Update` and `Draw` require a ranking for the same reason.
- Floating-point rounding, overflow and NaN in vectors and matrices. Only the bounds of a box carry infinities.
- `SpriteObject`, `Game`, `Program`, `Timer` and the Raylib calls are not part of this model.

## Findings

| source | as written | input that shows it | evidently intended | confidence | as-written member | corrected member |
|---|---|---|---|---|---|---|
| ConsoleApp1/Collision.cs:80-83 | `Math.Abs(max.x = min.x) * 0.5f` assigns `max` from `min` and halves `abs(min)` | box `(0,0,0)..(10,10,10)`: returns `(0,0,0)` and collapses the box onto `min` | `abs(max - min) * 0.5` per axis, leaving the box unchanged | not executed | Collision.ExtentsDefect | Collision.CenterAndHalfExtentsRecoverBounds |
| ConsoleApp1/Collision.cs:85-93 | indexer writes into `new List<Vector3>(4)`, which has capacity 4 but no elements | any box: `corners[0] = min` throws `ArgumentOutOfRangeException` | return the four corners in the order the method writes them: `min`, `(min.x, max.y)`, `max`, `(max.x, min.y)` | not executed | Collision.AABB.Corners | Collision.AABB.CornerPoints |
| ConsoleApp1/MathFunctions.cs:497-502 | the first column adds `lhs.m2 + rhs.m3` and `lhs.m4 + rhs.m3`, and every term pairs the cells of the two transposes | `identity * identity` has `m2 == 1`; with products for the sums, `a = (0, 1, -1, 0)` and `b = (1, 0, 1, 1)` give a first cell of 1 where `a b` has 0 | the matrix product, composing the two transforms | not executed | Matrices.Matrix2MulNotComposition | Matrices.Matrix2ProductLaws |
| ConsoleApp1/MathFunctions.cs:725-735 | `GetTransposed` rebuilds the matrix from its cells in their own order | the translation by `(1, 0, 0)` comes back unchanged, with the offset still in `m13` | the transpose, as documented | not executed | Matrices.Matrix4TransposeDefect | Matrices.Matrix4TransposedProduct |
| ConsoleApp1/SceneObject.cs:14-15 | a new node's local transform is `new Matrix3()`, all zeros | a root at `SetPosition(1, 2)` with a child at `SetPosition(3, 4)`: the child's global origin is `(1, 2)` | an identity local transform, so the child sits at `(4, 6)` | not executed | SceneGraph.PositionedChild | SceneGraph.PositionedChildFromIdentity |
