/** The scene hierarchy of `SceneObject`: nodes with a local and a cached global 2D transform,
    an optional parent and an ordered child list.

    A C# `SceneObject` is a heap object that points at its parent and its children. Here the
    whole hierarchy is one `Scene` object holding a map per field, keyed by node id:
    `parent[n]` is `n.parent`, `children[n]` is `n.children`, `local[n]` and `global[n]` are
    `n.localTransform` and `n.globalTransform`. A method of the C# class becomes a method of
    `Scene` that takes the id of the node it is called on. The ghost `rank` map witnesses that
    the hierarchy is a forest; the C# code never checks this, so the operations that need it
    (`UpdateTransform`, `Update`, `Draw`) require it, and `AddChild` says when it survives. */
module SceneGraph {
  import opened Options
  import opened Vectors
  import opened Matrices
  import opened Forest

  /** Invariant (b) of the hierarchy at node `m`: a root's global transform is its local one,
      and any other node's is its parent's global transform times its own local one. */
  ghost predicate Consistent(parent: map<NodeId, Option<NodeId>>, local: map<NodeId, Matrix3>,
                             global: map<NodeId, Matrix3>, m: NodeId)
  {
    m in parent && m in local && m in global &&
    match parent[m]
    case None => global[m] == local[m]
    case Some(q) => q in global && global[m] == global[q].Mul(local[m])
  }

  class Scene {
    var parent: map<NodeId, Option<NodeId>>
    var children: map<NodeId, seq<NodeId>>
    var local: map<NodeId, Matrix3>
    var global: map<NodeId, Matrix3>
    /** The id the next node gets. */
    var nextId: NodeId
    ghost var rank: map<NodeId, nat>

    /** Every node has all four fields, ids are below `nextId`, and parent and child links agree. */
    ghost predicate Valid()
      reads this
    {
      WellFormed(parent, children, local, global, nextId)
    }

    /** `rank` shows the child links form a forest: no node is its own descendant. */
    ghost predicate Acyclic()
      reads this
    {
      Ranked(children, rank)
    }

    /** Some ranking of the child links exists. */
    ghost predicate IsForest()
      reads this
    {
      exists r :: Ranked(children, r)
    }

    /** Invariant (b) at every node. */
    ghost predicate AllConsistent()
      reads this
    {
      ConsistentEverywhere(parent, local, global)
    }

    /** What a recomputation of the global transforms under `n` leaves behind: the scene is
        still valid and acyclic, the nodes outside the subtree of `n` keep their global
        transform, and every node of the subtree is consistent with its parent. */
    twostate predicate Retransformed(n: NodeId)
      reads this
    {
      Valid() && Acyclic() && n in children &&
      SameOutside(old(global), global, PreOrder(children, rank, n)) &&
      ConsistentOn(parent, local, global, PreOrder(children, rank, n))
    }

    /** An empty scene. */
    constructor ()
      ensures Valid() && Acyclic() && AllConsistent()
      ensures parent == map[] && children == map[] && local == map[] && global == map[]
      ensures nextId == 0 && rank == map[]
    {
      parent, children, local, global := map[], map[], map[], map[];
      nextId := 0;
      rank := map[];
    }

    /** `new SceneObject()`: a parentless node with no children, whose local and global
        transforms are `new Matrix3()`, the all-zero matrix. */
    method NewNode() returns (id: NodeId)
      requires Valid()
      modifies this
      ensures Valid() && id !in old(parent)
      ensures parent == old(parent)[id := None] && children == old(children)[id := []]
      ensures local == old(local)[id := Zero3] && global == old(global)[id := Zero3]
      ensures rank == old(rank)[id := 0] && nextId == id + 1
      ensures old(Acyclic()) ==> Acyclic()
      ensures old(AllConsistent()) ==> AllConsistent()
    {
      id := AddNode(Zero3);
    }

    /** A node created with the identity as its local and global transform. */
    method NewIdentityNode() returns (id: NodeId)
      requires Valid()
      modifies this
      ensures Valid() && id !in old(parent)
      ensures parent == old(parent)[id := None] && children == old(children)[id := []]
      ensures local == old(local)[id := Identity3] && global == old(global)[id := Identity3]
      ensures rank == old(rank)[id := 0] && nextId == id + 1
      ensures old(Acyclic()) ==> Acyclic()
      ensures old(AllConsistent()) ==> AllConsistent()
    {
      id := AddNode(Identity3);
    }

    /** Adds a parentless, childless node whose two transforms are `m`. */
    method AddNode(m: Matrix3) returns (id: NodeId)
      requires Valid()
      modifies this
      ensures Valid() && id !in old(parent)
      ensures parent == old(parent)[id := None] && children == old(children)[id := []]
      ensures local == old(local)[id := m] && global == old(global)[id := m]
      ensures rank == old(rank)[id := 0] && nextId == id + 1
      ensures old(Acyclic()) ==> Acyclic()
      ensures old(AllConsistent()) ==> AllConsistent()
    {
      id := nextId;
      AddRootWellFormed(parent, children, local, global, nextId, m);
      AddRootRanked(parent, children, rank, id);
      AddRootConsistent(parent, local, global, id, m);
      parent, children, local, global := parent[id := None], children[id := []], local[id := m], global[id := m];
      rank, nextId := rank[id := 0], nextId + 1;
    }

    /** `p.AddChild(c)`: `c` must have no parent (the `Debug.Assert`); it gets `p` as parent
        and goes at the end of `p`'s child list. No global transform is recomputed. The
        hierarchy stays a forest exactly when `p` is not in the subtree of `c`. */
    method AddChild(p: NodeId, c: NodeId)
      requires Valid() && p in parent && c in parent
      requires parent[c] == None
      modifies this
      ensures Valid()
      ensures parent == old(parent)[c := Some(p)]
      ensures children == old(children)[p := old(children)[p] + [c]]
      ensures local == old(local) && global == old(global) && nextId == old(nextId)
      ensures old(Acyclic()) && p !in old(PreOrder(children, rank, c)) ==> Acyclic()
    {
      AttachLinked(parent, children, p, c);
      AttachKeepsForest(children, rank, p, c);
      rank := RankAfterAttach(children, rank, p, c);
      parent := parent[c := Some(p)];
      children := children[p := children[p] + [c]];
    }

    /** `p.RemoveChild(c)`: when `c` is in `p`'s child list, its first occurrence is removed
        and `c` loses its parent; otherwise nothing changes. No global transform is
        recomputed. */
    method RemoveChild(p: NodeId, c: NodeId)
      requires Valid() && p in parent
      modifies this
      ensures Valid()
      ensures c in old(children)[p] ==>
        parent == old(parent)[c := None] && children == old(children)[p := RemoveFirst(old(children)[p], c)]
      ensures c !in old(children)[p] ==> parent == old(parent) && children == old(children)
      ensures local == old(local) && global == old(global) && nextId == old(nextId) && rank == old(rank)
      ensures old(Acyclic()) ==> Acyclic()
    {
      if c in children[p] {
        DetachLinked(parent, children, p, c);
        DetachRanked(children, rank, p, c);
        children := children[p := RemoveFirst(children[p], c)];
        parent := parent[c := None];
      }
    }

    /** `GetChildCount()`: the number of nodes whose parent is `n`. */
    function GetChildCount(n: NodeId): (r: nat)
      reads this
      requires Valid() && n in children
      ensures r == |ParentedBy(parent, n)|
    {
      ChildCount(parent, children, n);
      |children[n]|
    }

    /** `GetChild(index)`: the child at `index`, or the indexer's `ArgumentOutOfRangeException`. */
    function GetChild(n: NodeId, index: int): (r: Result<NodeId, ListError>)
      reads this
      requires Valid() && n in children
      ensures r.Success? <==> 0 <= index < |children[n]|
      ensures r.Success? ==> r.value == children[n][index]
      ensures r.Success? ==> r.value in parent && parent[r.value] == Some(n)
    {
      if 0 <= index < |children[n]| then Success(children[n][index]) else Failure(ArgumentOutOfRange)
    }

    /** `UpdateTransform()`: recomputes the global transform of `n` from its parent's and its
        own local one, then recurses into the children in list order. The new global
        transforms are `Recomputed` from the old ones; `RecomputedMeaning` says what that
        means. */
    method UpdateTransform(n: NodeId)
      requires Covered(parent, children, rank, local, global) && n in children
      modifies this`global
      ensures global == Recomputed(parent, children, rank, local, old(global), n)
      decreases rank[n]
    {
      global := global[n := if parent[n].Some? then global[parent[n].value].Mul(local[n]) else local[n]];
      ghost var own := global;
      var cs := children[n];
      for i := 0 to |cs|
        invariant Covered(parent, children, rank, local, own)
        invariant global == RecomputedChildren(parent, children, rank, local, own, n, i)
      {
        RecomputedChildrenStep(parent, children, rank, local, own, n, i);
        UpdateTransform(cs[i]);
      }
    }

    /** Replaces the local transform of `n` with `m`, then `UpdateTransform()`: the shared shape
        of the six transform setters. */
    method SetLocal(n: NodeId, m: Matrix3)
      requires Valid() && Acyclic() && n in parent
      modifies this`local, this`global
      ensures Retransformed(n) && local == old(local)[n := m]
      ensures old(AllConsistent()) ==> AllConsistent()
    {
      LocalChangeSettles(parent, children, rank, local, global, nextId, n, m);
      local := local[n := m];
      UpdateTransform(n);
    }

    /** `SetPosition(x, y)`: `SetTranslation` on the local transform. */
    method SetPosition(n: NodeId, x: real, y: real)
      requires Valid() && Acyclic() && n in parent
      modifies this`local, this`global
      ensures Retransformed(n) && local == old(local)[n := old(local)[n].SetTranslation(x, y)]
      ensures old(AllConsistent()) ==> AllConsistent()
    {
      SetLocal(n, local[n].SetTranslation(x, y));
    }

    /** `SetRotate(radians)`, with `c` and `s` the cosine and sine of the angle: `SetRotateZ`
        on the local transform. */
    method SetRotate(n: NodeId, c: real, s: real)
      requires Valid() && Acyclic() && n in parent
      modifies this`local, this`global
      ensures Retransformed(n) && local == old(local)[n := old(local)[n].SetRotateZ(c, s)]
      ensures old(AllConsistent()) ==> AllConsistent()
    {
      SetLocal(n, local[n].SetRotateZ(c, s));
    }

    /** `SetScale(width, height)`: `SetScaled(width, height, 1)` on the local transform. */
    method SetScale(n: NodeId, width: real, height: real)
      requires Valid() && Acyclic() && n in parent
      modifies this`local, this`global
      ensures Retransformed(n) && local == old(local)[n := old(local)[n].SetScaled(width, height, 1.0)]
      ensures old(AllConsistent()) ==> AllConsistent()
    {
      SetLocal(n, local[n].SetScaled(width, height, 1.0));
    }

    /** `Translate(x, y)`: `Translate` on the local transform. */
    method Translate(n: NodeId, x: real, y: real)
      requires Valid() && Acyclic() && n in parent
      modifies this`local, this`global
      ensures Retransformed(n) && local == old(local)[n := old(local)[n].Translate(x, y)]
      ensures old(AllConsistent()) ==> AllConsistent()
    {
      SetLocal(n, local[n].Translate(x, y));
    }

    /** `Rotate(radians)`, with `c` and `s` the cosine and sine of the angle: `RotateZ` on the
        local transform. */
    method Rotate(n: NodeId, c: real, s: real)
      requires Valid() && Acyclic() && n in parent
      modifies this`local, this`global
      ensures Retransformed(n) && local == old(local)[n := old(local)[n].RotateZ(c, s)]
      ensures old(AllConsistent()) ==> AllConsistent()
    {
      SetLocal(n, local[n].RotateZ(c, s));
    }

    /** `Scale(width, height)`: `Scale(width, height, 1)` on the local transform. */
    method Scale(n: NodeId, width: real, height: real)
      requires Valid() && Acyclic() && n in parent
      modifies this`local, this`global
      ensures Retransformed(n) && local == old(local)[n := old(local)[n].Scale(width, height, 1.0)]
      ensures old(AllConsistent()) ==> AllConsistent()
    {
      SetLocal(n, local[n].Scale(width, height, 1.0));
    }

    /** `Update(deltaTime)`: runs the `OnUpdate` hook of `n`, then updates each child in list
        order. The hooks do nothing in `SceneObject`; the result lists the nodes whose hook
        ran, in order: the pre-order walk of the subtree (`PreOrderNoDup`: each node once). */
    method Update(n: NodeId, deltaTime: real) returns (visited: seq<NodeId>)
      requires Acyclic() && n in children
      ensures visited == PreOrder(children, rank, n)
      decreases rank[n]
    {
      visited := [n];
      var cs := children[n];
      for i := 0 to |cs|
        invariant visited == [n] + ChildWalks(children, rank, n, i)
      {
        var sub := Update(cs[i], deltaTime);
        visited := visited + sub;
      }
    }

    /** `Draw()`: runs the `OnDraw` hook of `n`, then draws each child in list order; the
        result lists the nodes drawn, in order. */
    method Draw(n: NodeId) returns (drawn: seq<NodeId>)
      requires Acyclic() && n in children
      ensures drawn == PreOrder(children, rank, n)
      decreases rank[n]
    {
      drawn := [n];
      var cs := children[n];
      for i := 0 to |cs|
        invariant drawn == [n] + ChildWalks(children, rank, n, i)
      {
        var sub := Draw(cs[i]);
        drawn := drawn + sub;
      }
    }
  }

  /** Invariant (b) at every node. */
  ghost predicate ConsistentEverywhere(parent: map<NodeId, Option<NodeId>>, local: map<NodeId, Matrix3>,
                                       global: map<NodeId, Matrix3>)
  {
    forall m :: m in parent ==> Consistent(parent, local, global, m)
  }

  /** Every node has all four fields, ids are below `nextId`, and parent and child links agree. */
  ghost predicate WellFormed(parent: map<NodeId, Option<NodeId>>, children: map<NodeId, seq<NodeId>>,
                             local: map<NodeId, Matrix3>, global: map<NodeId, Matrix3>, nextId: NodeId)
  {
    children.Keys == parent.Keys && local.Keys == parent.Keys && global.Keys == parent.Keys &&
    (forall n :: n in parent ==> n < nextId) &&
    Linked(parent, children)
  }

  /** Adding a parentless, childless node under the next id keeps the maps well formed. */
  lemma AddRootWellFormed(parent: map<NodeId, Option<NodeId>>, children: map<NodeId, seq<NodeId>>,
                          local: map<NodeId, Matrix3>, global: map<NodeId, Matrix3>, nextId: NodeId, m: Matrix3)
    requires WellFormed(parent, children, local, global, nextId)
    ensures WellFormed(parent[nextId := None], children[nextId := []], local[nextId := m], global[nextId := m], nextId + 1)
  {
    AddRootLinked(parent, children, nextId);
  }

  /** A new root whose two transforms are equal is consistent, and leaves every other node
      as consistent as it was. */
  lemma AddRootConsistent(parent: map<NodeId, Option<NodeId>>, local: map<NodeId, Matrix3>,
                          global: map<NodeId, Matrix3>, id: NodeId, m: Matrix3)
    requires id !in parent && id !in local && id !in global
    ensures ConsistentEverywhere(parent, local, global) ==>
      ConsistentEverywhere(parent[id := None], local[id := m], global[id := m])
  {
    if ConsistentEverywhere(parent, local, global) {
      var parent', local', global' := parent[id := None], local[id := m], global[id := m];
      forall x | x in parent' ensures Consistent(parent', local', global', x) {
        if x != id {
          assert Consistent(parent, local, global, x);
        }
      }
    }
  }

  /** Replacing the local transform of `n` and recomputing the subtree of `n` keeps the maps
      well formed, changes no global transform outside the subtree, makes the subtree
      consistent, and so keeps a consistent hierarchy consistent. */
  lemma LocalChangeSettles(parent: map<NodeId, Option<NodeId>>, children: map<NodeId, seq<NodeId>>,
                           rank: map<NodeId, nat>, local: map<NodeId, Matrix3>, global: map<NodeId, Matrix3>,
                           nextId: NodeId, n: NodeId, m: Matrix3)
    requires WellFormed(parent, children, local, global, nextId) && Ranked(children, rank) && n in parent
    ensures Covered(parent, children, rank, local[n := m], global)
    ensures WellFormed(parent, children, local[n := m], Recomputed(parent, children, rank, local[n := m], global, n), nextId)
    ensures SameOutside(global, Recomputed(parent, children, rank, local[n := m], global, n), PreOrder(children, rank, n))
    ensures ConsistentOn(parent, local[n := m], Recomputed(parent, children, rank, local[n := m], global, n), PreOrder(children, rank, n))
    ensures ConsistentEverywhere(parent, local, global) ==>
      ConsistentEverywhere(parent, local[n := m], Recomputed(parent, children, rank, local[n := m], global, n))
  {
    var local' := local[n := m];
    assert Shaped(parent, children, rank, local', global);
    var after := Recomputed(parent, children, rank, local', global, n);
    RecomputedMeaning(parent, children, rank, local', global, n);
    if ConsistentEverywhere(parent, local, global) {
      OutsideStaysConsistent(parent, children, rank, local, local', global, after, n, m);
    }
  }

  /** The nodes of `nodes` are consistent with their parents. */
  ghost predicate ConsistentOn(parent: map<NodeId, Option<NodeId>>, local: map<NodeId, Matrix3>,
                               global: map<NodeId, Matrix3>, nodes: seq<NodeId>)
  {
    forall m :: m in nodes ==> Consistent(parent, local, global, m)
  }

  /** `after` has the same nodes as `before` and agrees with it outside `nodes`. */
  ghost predicate SameOutside(before: map<NodeId, Matrix3>, after: map<NodeId, Matrix3>, nodes: seq<NodeId>)
  {
    after.Keys == before.Keys &&
    forall m :: m in before && m !in nodes ==> after[m] == before[m]
  }

  /** What a recomputation reads is there: every listed node has a local and a global
      transform, every parent has a global transform, and the child links are ranked. */
  ghost predicate Covered(parent: map<NodeId, Option<NodeId>>, children: map<NodeId, seq<NodeId>>,
                          rank: map<NodeId, nat>, local: map<NodeId, Matrix3>, global: map<NodeId, Matrix3>)
  {
    Ranked(children, rank) &&
    (forall m :: m in children ==> m in parent && m in local && m in global) &&
    (forall m :: m in parent && parent[m].Some? ==> parent[m].value in global)
  }

  /** A covered, linked hierarchy whose four maps have the same nodes. */
  ghost predicate Shaped(parent: map<NodeId, Option<NodeId>>, children: map<NodeId, seq<NodeId>>,
                         rank: map<NodeId, nat>, local: map<NodeId, Matrix3>, global: map<NodeId, Matrix3>)
  {
    Linked(parent, children) && local.Keys == parent.Keys && global.Keys == parent.Keys &&
    Covered(parent, children, rank, local, global)
  }

  /** The global transforms after `UpdateTransform(n)` runs on `global`: `n` gets its parent's
      global transform times its local one (its local one at a root), then each child's
      subtree is recomputed in list order. */
  ghost function Recomputed(parent: map<NodeId, Option<NodeId>>, children: map<NodeId, seq<NodeId>>,
                            rank: map<NodeId, nat>, local: map<NodeId, Matrix3>, global: map<NodeId, Matrix3>,
                            n: NodeId): (r: map<NodeId, Matrix3>)
    requires Covered(parent, children, rank, local, global) && n in children
    ensures r.Keys == global.Keys
    decreases rank[n], 1
  {
    var own := if parent[n].Some? then global[parent[n].value].Mul(local[n]) else local[n];
    RecomputedChildren(parent, children, rank, local, global[n := own], n, |children[n]|)
  }

  /** The global transforms after the subtrees of the first `k` children of `n` are
      recomputed in list order. */
  ghost function RecomputedChildren(parent: map<NodeId, Option<NodeId>>, children: map<NodeId, seq<NodeId>>,
                                    rank: map<NodeId, nat>, local: map<NodeId, Matrix3>,
                                    global: map<NodeId, Matrix3>, n: NodeId, k: nat): (r: map<NodeId, Matrix3>)
    requires Covered(parent, children, rank, local, global) && n in children && k <= |children[n]|
    ensures r.Keys == global.Keys
    decreases rank[n], 0, k
  {
    if k == 0 then global
    else
      var before := RecomputedChildren(parent, children, rank, local, global, n, k - 1);
      Recomputed(parent, children, rank, local, before, children[n][k - 1])
  }

  /** One step of the loop in `UpdateTransform(n)`: child `i` is a node of lower rank, and
      recomputing its subtree extends the recomputation to the first `i + 1` children. */
  lemma RecomputedChildrenStep(parent: map<NodeId, Option<NodeId>>, children: map<NodeId, seq<NodeId>>,
                               rank: map<NodeId, nat>, local: map<NodeId, Matrix3>,
                               global: map<NodeId, Matrix3>, n: NodeId, i: nat)
    requires Covered(parent, children, rank, local, global) && n in children && i < |children[n]|
    ensures children[n][i] in children && rank[children[n][i]] < rank[n]
    ensures Covered(parent, children, rank, local, RecomputedChildren(parent, children, rank, local, global, n, i))
    ensures RecomputedChildren(parent, children, rank, local, global, n, i + 1) ==
      Recomputed(parent, children, rank, local, RecomputedChildren(parent, children, rank, local, global, n, i), children[n][i])
  {
    assert children[n][i] in children[n];
  }

  /** A recomputation under `n` changes only the subtree of `n`, and leaves each node of that
      subtree consistent with its parent. */
  lemma RecomputedMeaning(parent: map<NodeId, Option<NodeId>>, children: map<NodeId, seq<NodeId>>,
                          rank: map<NodeId, nat>, local: map<NodeId, Matrix3>,
                          global: map<NodeId, Matrix3>, n: NodeId)
    requires Shaped(parent, children, rank, local, global) && n in parent
    ensures SameOutside(global, Recomputed(parent, children, rank, local, global, n), PreOrder(children, rank, n))
    ensures ConsistentOn(parent, local, Recomputed(parent, children, rank, local, global, n), PreOrder(children, rank, n))
  {
    forall m | m in global && m !in PreOrder(children, rank, n)
      ensures Recomputed(parent, children, rank, local, global, n)[m] == global[m]
    {
      RecomputedOutside(parent, children, rank, local, global, n, m);
    }
    forall m | m in PreOrder(children, rank, n)
      ensures Consistent(parent, local, Recomputed(parent, children, rank, local, global, n), m)
    {
      RecomputedInside(parent, children, rank, local, global, n, m);
    }
  }

  /** A node outside the subtree of `n` keeps its global transform. */
  lemma {:induction false} RecomputedOutside(parent: map<NodeId, Option<NodeId>>, children: map<NodeId, seq<NodeId>>,
                                             rank: map<NodeId, nat>, local: map<NodeId, Matrix3>,
                                             global: map<NodeId, Matrix3>, n: NodeId, m: NodeId)
    requires Shaped(parent, children, rank, local, global) && n in parent
    requires m in global && m !in PreOrder(children, rank, n)
    ensures Recomputed(parent, children, rank, local, global, n)[m] == global[m]
    decreases rank[n], 1
  {
    var own := global[n := if parent[n].Some? then global[parent[n].value].Mul(local[n]) else local[n]];
    RecomputedChildrenOutside(parent, children, rank, local, own, n, |children[n]|, m);
  }

  /** A node outside the subtrees of the first `k` children of `n` keeps its global transform
      while they are recomputed. */
  lemma {:induction false} RecomputedChildrenOutside(parent: map<NodeId, Option<NodeId>>, children: map<NodeId, seq<NodeId>>,
                                                     rank: map<NodeId, nat>, local: map<NodeId, Matrix3>,
                                                     global: map<NodeId, Matrix3>, n: NodeId, k: nat, m: NodeId)
    requires Shaped(parent, children, rank, local, global) && n in parent && k <= |children[n]|
    requires m in global && m !in ChildWalks(children, rank, n, k)
    ensures RecomputedChildren(parent, children, rank, local, global, n, k)[m] == global[m]
    decreases rank[n], 0, k
  {
    if k > 0 {
      assert ChildWalks(children, rank, n, k) ==
        ChildWalks(children, rank, n, k - 1) + PreOrder(children, rank, children[n][k - 1]);
      RecomputedChildrenOutside(parent, children, rank, local, global, n, k - 1, m);
      var before := RecomputedChildren(parent, children, rank, local, global, n, k - 1);
      RecomputedOutside(parent, children, rank, local, before, children[n][k - 1], m);
    }
  }

  /** Every node of the subtree of `n` is consistent with its parent after the
      recomputation. */
  lemma {:induction false} RecomputedInside(parent: map<NodeId, Option<NodeId>>, children: map<NodeId, seq<NodeId>>,
                                            rank: map<NodeId, nat>, local: map<NodeId, Matrix3>,
                                            global: map<NodeId, Matrix3>, n: NodeId, m: NodeId)
    requires Shaped(parent, children, rank, local, global) && n in parent
    requires m in PreOrder(children, rank, n)
    ensures Consistent(parent, local, Recomputed(parent, children, rank, local, global, n), m)
    decreases rank[n], 1
  {
    var own := global[n := if parent[n].Some? then global[parent[n].value].Mul(local[n]) else local[n]];
    if parent[n].Some? {
      var q := parent[n].value;
      assert n in children[q];
    }
    assert Consistent(parent, local, own, n);
    assert PreOrder(children, rank, n) == [n] + ChildWalks(children, rank, n, |children[n]|);
    RecomputedChildrenInside(parent, children, rank, local, own, n, |children[n]|, m);
  }

  /** With `n` already consistent, `n` and every node of the subtrees of its first `k`
      children are consistent once those subtrees are recomputed. */
  lemma {:induction false} RecomputedChildrenInside(parent: map<NodeId, Option<NodeId>>, children: map<NodeId, seq<NodeId>>,
                                                    rank: map<NodeId, nat>, local: map<NodeId, Matrix3>,
                                                    global: map<NodeId, Matrix3>, n: NodeId, k: nat, m: NodeId)
    requires Shaped(parent, children, rank, local, global) && n in parent && k <= |children[n]|
    requires Consistent(parent, local, global, n)
    requires m in [n] + ChildWalks(children, rank, n, k)
    ensures Consistent(parent, local, RecomputedChildren(parent, children, rank, local, global, n, k), m)
    decreases rank[n], 0, k
  {
    if k > 0 {
      if m in PreOrder(children, rank, children[n][k - 1]) {
        ChildRecomputedInside(parent, children, rank, local, global, n, k - 1, m);
      } else {
        RecomputedChildrenInside(parent, children, rank, local, global, n, k - 1, m);
        LaterChildKeepsConsistent(parent, children, rank, local, global, n, k - 1, m);
      }
    }
  }

  /** Recomputing the subtrees of the first `k` children keeps every node in every map. */
  lemma RecomputedChildrenShaped(parent: map<NodeId, Option<NodeId>>, children: map<NodeId, seq<NodeId>>,
                                 rank: map<NodeId, nat>, local: map<NodeId, Matrix3>,
                                 global: map<NodeId, Matrix3>, n: NodeId, k: nat)
    requires Shaped(parent, children, rank, local, global) && n in children && k <= |children[n]|
    ensures Shaped(parent, children, rank, local, RecomputedChildren(parent, children, rank, local, global, n, k))
  {
    var after := RecomputedChildren(parent, children, rank, local, global, n, k);
    assert after.Keys == global.Keys;
  }

  /** Recomputing the subtree of the child at `i` makes the nodes of that subtree consistent. */
  lemma ChildRecomputedInside(parent: map<NodeId, Option<NodeId>>, children: map<NodeId, seq<NodeId>>,
                              rank: map<NodeId, nat>, local: map<NodeId, Matrix3>,
                              global: map<NodeId, Matrix3>, n: NodeId, i: nat, m: NodeId)
    requires Shaped(parent, children, rank, local, global) && n in parent && i < |children[n]|
    requires m in PreOrder(children, rank, children[n][i])
    ensures Consistent(parent, local, RecomputedChildren(parent, children, rank, local, global, n, i + 1), m)
    decreases rank[n], 0, i, 0
  {
    RecomputedChildrenStep(parent, children, rank, local, global, n, i);
    RecomputedChildrenShaped(parent, children, rank, local, global, n, i);
    var before := RecomputedChildren(parent, children, rank, local, global, n, i);
    var c := children[n][i];
    assert c in children[n];
    RecomputedInside(parent, children, rank, local, before, c, m);
  }

  /** Recomputing the subtree of the child at `i` leaves consistent a node that is `n` itself
      or lies under an earlier child. */
  lemma LaterChildKeepsConsistent(parent: map<NodeId, Option<NodeId>>, children: map<NodeId, seq<NodeId>>,
                                  rank: map<NodeId, nat>, local: map<NodeId, Matrix3>,
                                  global: map<NodeId, Matrix3>, n: NodeId, i: nat, m: NodeId)
    requires Shaped(parent, children, rank, local, global) && n in parent && i < |children[n]|
    requires m in [n] + ChildWalks(children, rank, n, i)
    requires Consistent(parent, local, RecomputedChildren(parent, children, rank, local, global, n, i), m)
    ensures Consistent(parent, local, RecomputedChildren(parent, children, rank, local, global, n, i + 1), m)
  {
    RecomputedChildrenStep(parent, children, rank, local, global, n, i);
    RecomputedChildrenShaped(parent, children, rank, local, global, n, i);
    var before := RecomputedChildren(parent, children, rank, local, global, n, i);
    var c := children[n][i];
    assert c in children[n];
    if m == n {
      NodeOutsideChildWalk(parent, children, rank, n, i);
    } else {
      EarlierSiblingOutside(parent, children, rank, n, i, m);
    }
    RecomputedOutside(parent, children, rank, local, before, c, m);
    if parent[m].Some? {
      RecomputedOutside(parent, children, rank, local, before, c, parent[m].value);
    }
  }

  /** `n` and its parent are outside the walk under any child of `n`. */
  lemma NodeOutsideChildWalk(parent: map<NodeId, Option<NodeId>>, children: map<NodeId, seq<NodeId>>,
                             rank: map<NodeId, nat>, n: NodeId, i: nat)
    requires Linked(parent, children) && Ranked(children, rank) && n in children && i < |children[n]|
    ensures n !in PreOrder(children, rank, children[n][i])
    ensures parent[n].Some? ==> parent[n].value !in PreOrder(children, rank, children[n][i])
  {
    var last := children[n][i];
    NotBelowOwnChild(children, rank, n, last);
    if parent[n].Some? {
      var q := parent[n].value;
      assert n in children[q];
      if q in PreOrder(children, rank, last) {
        PreOrderRank(children, rank, last, q);
      }
    }
  }

  /** A node in the walks under the first `i` children of `n`, and its parent, are outside
      the walk under child `i`. */
  lemma EarlierSiblingOutside(parent: map<NodeId, Option<NodeId>>, children: map<NodeId, seq<NodeId>>,
                              rank: map<NodeId, nat>, n: NodeId, i: nat, m: NodeId)
    requires Linked(parent, children) && Ranked(children, rank) && n in children && i < |children[n]|
    requires m in ChildWalks(children, rank, n, i)
    ensures m in parent && parent[m].Some?
    ensures m !in PreOrder(children, rank, children[n][i])
    ensures parent[m].value !in PreOrder(children, rank, children[n][i])
  {
    EarlierWalksApart(parent, children, rank, n, i, m);
    var j := ChildWalkIndex(children, rank, n, i, m);
    var sib := children[n][j];
    if m != sib {
      ParentOfMemberIsMember(parent, children, rank, sib, m);
      var q := parent[m].value;
      ChildWalkIncludedInWalks(children, rank, n, i, j, q);
      EarlierWalksApart(parent, children, rank, n, i, q);
    } else {
      assert parent[m] == Some(n);
      NodeOutsideChildWalk(parent, children, rank, n, i);
    }
  }

  /** After the local transform of `n` changes and the subtree of `n` is recomputed, the nodes
      outside that subtree are as consistent as before: neither they nor their parents
      changed. */
  lemma OutsideStaysConsistent(parent: map<NodeId, Option<NodeId>>, children: map<NodeId, seq<NodeId>>,
                               rank: map<NodeId, nat>, local: map<NodeId, Matrix3>, local': map<NodeId, Matrix3>,
                               before: map<NodeId, Matrix3>, after: map<NodeId, Matrix3>, n: NodeId, m: Matrix3)
    requires Linked(parent, children) && Ranked(children, rank) && n in children
    requires local.Keys == parent.Keys && before.Keys == parent.Keys && local' == local[n := m]
    requires ConsistentEverywhere(parent, local, before)
    requires SameOutside(before, after, PreOrder(children, rank, n))
    requires ConsistentOn(parent, local', after, PreOrder(children, rank, n))
    ensures ConsistentEverywhere(parent, local', after)
  {
    var sub := PreOrder(children, rank, n);
    assert n in sub;
    forall x | x in parent
      ensures Consistent(parent, local', after, x)
    {
      if x !in sub {
        assert Consistent(parent, local, before, x);
        if parent[x].Some? {
          var q := parent[x].value;
          assert x in children[q];
          if q in sub {
            ChildOfMemberIsMember(children, rank, n, q, x);
          }
        }
      }
    }
  }

  // ---------------------------------------------------------------------------------------
  // Scenarios

  /** Attaching two fresh nodes to each other in turn passes the parentless-child assertion
      both times and leaves a two-node cycle: no ranking of the child links exists. */
  method MutualAttach() returns (s: Scene, a: NodeId, b: NodeId)
    ensures s.Valid() && a != b && a in s.parent && b in s.parent
    ensures s.parent[a] == Some(b) && s.parent[b] == Some(a)
    ensures !s.IsForest()
  {
    s := new Scene();
    a := s.NewNode();
    b := s.NewNode();
    s.AddChild(a, b);
    s.AddChild(b, a);
    TwoCycleUnranked(s.children, a, b);
  }

  /** Two nodes each listed as the other's child admit no ranking. */
  lemma TwoCycleUnranked(children: map<NodeId, seq<NodeId>>, a: NodeId, b: NodeId)
    requires a in children && b in children && b in children[a] && a in children[b]
    ensures !exists r :: Ranked(children, r)
  {
    forall r ensures !Ranked(children, r) {
    }
  }

  /** With the zero matrix as the default local transform, a translation-only local transform
      keeps its zero upper-left block, and composing two of them forgets the child's offset:
      the child sits exactly where its parent is. */
  lemma ZeroLocalDropsOffset(a: real, b: real, c: real, d: real)
    ensures Zero3.SetTranslation(a, b).Mul(Zero3.SetTranslation(c, d)) == Zero3.SetTranslation(a, b)
    ensures Zero3.SetTranslation(a, b).Mul(Zero3.SetTranslation(c, d)).Apply(Vector3(0.0, 0.0, 1.0)) == Vector3(a, b, 1.0)
  {
  }

  /** From the identity, translation-only local transforms compose by adding their offsets. */
  lemma IdentityLocalAddsOffsets(a: real, b: real, c: real, d: real)
    ensures Identity3.SetTranslation(a, b).Mul(Identity3.SetTranslation(c, d)) == Identity3.SetTranslation(a + c, b + d)
    ensures Identity3.SetTranslation(a, b).Mul(Identity3.SetTranslation(c, d)).Apply(Vector3(0.0, 0.0, 1.0)) == Vector3(a + c, b + d, 1.0)
  {
  }

  /** A root at `SetPosition(x1, y1)` with a child at `SetPosition(x2, y2)`, both created by
      `NewNode` (zero local transforms) and both consistent: the child's global transform maps
      the origin to `(x1, y1)`, the parent's position, whatever `(x2, y2)` is. */
  lemma PositionedChild(parent: map<NodeId, Option<NodeId>>, local: map<NodeId, Matrix3>,
                        global: map<NodeId, Matrix3>, a: NodeId, b: NodeId, x1: real, y1: real, x2: real, y2: real)
    requires a in parent && parent[a] == None && b in parent && parent[b] == Some(a)
    requires a in local && local[a] == Zero3.SetTranslation(x1, y1)
    requires b in local && local[b] == Zero3.SetTranslation(x2, y2)
    requires Consistent(parent, local, global, a) && Consistent(parent, local, global, b)
    ensures global[b].Apply(Vector3(0.0, 0.0, 1.0)) == Vector3(x1, y1, 1.0)
  {
    ZeroLocalDropsOffset(x1, y1, x2, y2);
  }

  /** The same hierarchy built from `NewIdentityNode`: the child's global transform maps the
      origin to `(x1 + x2, y1 + y2)`. */
  lemma PositionedChildFromIdentity(parent: map<NodeId, Option<NodeId>>, local: map<NodeId, Matrix3>,
                                    global: map<NodeId, Matrix3>, a: NodeId, b: NodeId,
                                    x1: real, y1: real, x2: real, y2: real)
    requires a in parent && parent[a] == None && b in parent && parent[b] == Some(a)
    requires a in local && local[a] == Identity3.SetTranslation(x1, y1)
    requires b in local && local[b] == Identity3.SetTranslation(x2, y2)
    requires Consistent(parent, local, global, a) && Consistent(parent, local, global, b)
    ensures global[b].Apply(Vector3(0.0, 0.0, 1.0)) == Vector3(x1 + x2, y1 + y2, 1.0)
  {
    IdentityLocalAddsOffsets(x1, y1, x2, y2);
  }
}
