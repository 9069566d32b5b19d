/** The shape of the scene hierarchy, as pure definitions over maps from node ids.

    A scene node refers to its parent and to an ordered list of children. Here the nodes are
    ids, and the two references are maps: `parent[n]` and `children[n]`. `Linked` says the
    two agree. `Ranked` says that a rank map strictly decreases from every parent to each
    of its children, which is what makes the recursion over children terminate; the C# code
    has no such guarantee, so it is stated, never assumed. */
module Forest {
  import opened Options

  type NodeId = nat

  /** No id occurs twice in the list. */
  predicate NoDup(s: seq<NodeId>)
  {
    forall i, j :: 0 <= i < j < |s| ==> s[i] != s[j]
  }

  /** `parent` and `children` describe the same edges, and no child list repeats an id. */
  ghost predicate Linked(parent: map<NodeId, Option<NodeId>>, children: map<NodeId, seq<NodeId>>)
  {
    parent.Keys == children.Keys &&
    (forall p, c :: p in children && c in children[p] ==> c in parent && parent[c] == Some(p)) &&
    (forall c :: c in parent && parent[c].Some? ==> parent[c].value in children && c in children[parent[c].value]) &&
    (forall p :: p in children ==> NoDup(children[p]))
  }

  /** Every listed child is a node, and ranks strictly decrease along every edge. */
  ghost predicate Ranked(children: map<NodeId, seq<NodeId>>, rank: map<NodeId, nat>)
  {
    children.Keys <= rank.Keys &&
    forall p, c :: p in children && c in children[p] ==> c in children && rank[c] < rank[p]
  }

  /** The ids of the subtree under `n`, in the order of a depth-first pre-order walk:
      the node itself, then each child's subtree in list order. */
  ghost function PreOrder(children: map<NodeId, seq<NodeId>>, rank: map<NodeId, nat>, n: NodeId): seq<NodeId>
    requires Ranked(children, rank) && n in children
    decreases rank[n], 1, 0
  {
    [n] + ChildWalks(children, rank, n, |children[n]|)
  }

  /** The walks under the first `k` children of `n`, one after another. */
  ghost function ChildWalks(children: map<NodeId, seq<NodeId>>, rank: map<NodeId, nat>, n: NodeId, k: nat): seq<NodeId>
    requires Ranked(children, rank) && n in children && k <= |children[n]|
    decreases rank[n], 0, k
  {
    if k == 0 then []
    else ChildWalks(children, rank, n, k - 1) + PreOrder(children, rank, children[n][k - 1])
  }

  /** An id is in the walks under the first `k` children of `n` exactly when it is in the walk
      under one of them. */
  lemma {:induction false} ChildWalksMember(children: map<NodeId, seq<NodeId>>, rank: map<NodeId, nat>,
                                            n: NodeId, k: nat, m: NodeId)
    requires Ranked(children, rank) && n in children && k <= |children[n]|
    ensures m in ChildWalks(children, rank, n, k) <==>
            exists i :: 0 <= i < k && m in PreOrder(children, rank, children[n][i])
  {
    if k > 0 {
      ChildWalksMember(children, rank, n, k - 1, m);
    }
  }

  /** The index of the child whose walk holds an id of the walks under the first `k`
      children of `n`. */
  lemma {:induction false} ChildWalkIndex(children: map<NodeId, seq<NodeId>>, rank: map<NodeId, nat>,
                                          n: NodeId, k: nat, m: NodeId) returns (i: nat)
    requires Ranked(children, rank) && n in children && k <= |children[n]|
    requires m in ChildWalks(children, rank, n, k)
    ensures i < k && children[n][i] in children[n] && children[n][i] in children
    ensures m in PreOrder(children, rank, children[n][i])
  {
    if m in ChildWalks(children, rank, n, k - 1) {
      i := ChildWalkIndex(children, rank, n, k - 1, m);
    } else {
      i := k - 1;
    }
  }

  /** The walk under child `j` is part of the walks under the first `k` children, for
      `j < k`. */
  lemma {:induction false} ChildWalkIncludedInWalks(children: map<NodeId, seq<NodeId>>, rank: map<NodeId, nat>,
                                                    n: NodeId, k: nat, j: nat, m: NodeId)
    requires Ranked(children, rank) && n in children && j < k <= |children[n]|
    requires m in PreOrder(children, rank, children[n][j])
    ensures m in ChildWalks(children, rank, n, k)
  {
    if j < k - 1 {
      ChildWalkIncludedInWalks(children, rank, n, k - 1, j, m);
    }
  }

  /** Every id in the walk under `x` is a node ranked no higher than `x`, and strictly lower
      unless it is `x` itself. */
  lemma {:induction false} PreOrderRank(children: map<NodeId, seq<NodeId>>, rank: map<NodeId, nat>, x: NodeId, m: NodeId)
    requires Ranked(children, rank) && x in children
    requires m in PreOrder(children, rank, x)
    ensures m in children && rank[m] <= rank[x]
    ensures m != x ==> rank[m] < rank[x]
    decreases rank[x]
  {
    if m != x {
      var i := ChildWalkIndex(children, rank, x, |children[x]|, m);
      PreOrderRank(children, rank, children[x][i], m);
    }
  }

  /** A node is not in the walk under any of its children. */
  lemma NotBelowOwnChild(children: map<NodeId, seq<NodeId>>, rank: map<NodeId, nat>, x: NodeId, c: NodeId)
    requires Ranked(children, rank) && x in children && c in children[x]
    ensures x !in PreOrder(children, rank, c)
  {
    if x in PreOrder(children, rank, c) {
      PreOrderRank(children, rank, c, x);
    }
  }

  /** A child's walk is part of its parent's walk. */
  lemma ChildWalkIncluded(children: map<NodeId, seq<NodeId>>, rank: map<NodeId, nat>, x: NodeId, i: nat, m: NodeId)
    requires Ranked(children, rank) && x in children && i < |children[x]|
    requires m in PreOrder(children, rank, children[x][i])
    ensures m in PreOrder(children, rank, x)
  {
    ChildWalksMember(children, rank, x, |children[x]|, m);
  }

  /** Walks are closed downwards: the walk under any node of the walk under `x` is part of
      the walk under `x`. */
  lemma {:induction false} SubtreeClosed(children: map<NodeId, seq<NodeId>>, rank: map<NodeId, nat>,
                                         x: NodeId, y: NodeId, m: NodeId)
    requires Ranked(children, rank) && x in children && y in children
    requires y in PreOrder(children, rank, x)
    requires m in PreOrder(children, rank, y)
    ensures m in PreOrder(children, rank, x)
    decreases rank[x]
  {
    if y != x {
      var i := ChildWalkIndex(children, rank, x, |children[x]|, y);
      SubtreeClosed(children, rank, children[x][i], y, m);
      ChildWalkIncluded(children, rank, x, i, m);
    }
  }

  /** In particular, a child of any node of the walk under `x` is in that walk. */
  lemma ChildOfMemberIsMember(children: map<NodeId, seq<NodeId>>, rank: map<NodeId, nat>,
                              x: NodeId, y: NodeId, z: NodeId)
    requires Ranked(children, rank) && x in children && y in children
    requires y in PreOrder(children, rank, x) && z in children[y]
    ensures z in PreOrder(children, rank, x)
  {
    PreOrderRank(children, rank, x, y);
    var i :| 0 <= i < |children[y]| && children[y][i] == z;
    ChildWalkIncluded(children, rank, y, i, z);
    SubtreeClosed(children, rank, x, y, z);
  }

  /** Walks are closed upwards up to their root: the parent of any other node of the walk
      under `x` is in the walk too. */
  lemma {:induction false} ParentOfMemberIsMember(parent: map<NodeId, Option<NodeId>>, children: map<NodeId, seq<NodeId>>,
                                                  rank: map<NodeId, nat>, x: NodeId, m: NodeId)
    requires Linked(parent, children) && Ranked(children, rank) && x in children
    requires m in PreOrder(children, rank, x) && m != x
    ensures m in parent && parent[m].Some? && parent[m].value in PreOrder(children, rank, x)
    decreases rank[x]
  {
    var i := ChildWalkIndex(children, rank, x, |children[x]|, m);
    var c := children[x][i];
    if m == c {
      assert parent[m] == Some(x);
    } else {
      ParentOfMemberIsMember(parent, children, rank, c, m);
      ChildWalkIncluded(children, rank, x, i, parent[m].value);
    }
  }

  /** The walks under two different children of the same node share no id. */
  lemma {:induction false} SiblingWalksDisjoint(parent: map<NodeId, Option<NodeId>>, children: map<NodeId, seq<NodeId>>,
                                                rank: map<NodeId, nat>, n: NodeId, a: NodeId, b: NodeId, m: NodeId)
    requires Linked(parent, children) && Ranked(children, rank) && n in children
    requires a in children[n] && b in children[n]
    requires m in PreOrder(children, rank, a) && m in PreOrder(children, rank, b)
    ensures a == b
    decreases if m in rank && rank[m] <= rank[a] then rank[a] - rank[m] else 0
  {
    PreOrderRank(children, rank, a, m);
    if m == a || m == b {
      var (top, other) := if m == a then (a, b) else (b, a);
      if top != other {
        ParentOfMemberIsMember(parent, children, rank, other, top);
        assert parent[top] == Some(n);
        PreOrderRank(children, rank, other, n);
      }
    } else {
      ParentOfMemberIsMember(parent, children, rank, a, m);
      ParentOfMemberIsMember(parent, children, rank, b, m);
      var q := parent[m].value;
      assert m in children[q];
      PreOrderRank(children, rank, a, q);
      SiblingWalksDisjoint(parent, children, rank, n, a, b, q);
    }
  }

  /** Two different children of one node have disjoint walks, stated for one id. */
  lemma SiblingWalksApart(parent: map<NodeId, Option<NodeId>>, children: map<NodeId, seq<NodeId>>,
                          rank: map<NodeId, nat>, n: NodeId, a: NodeId, b: NodeId, m: NodeId)
    requires Linked(parent, children) && Ranked(children, rank) && n in children
    requires a in children[n] && b in children[n] && a != b
    requires m in PreOrder(children, rank, a)
    ensures m !in PreOrder(children, rank, b)
  {
    if m in PreOrder(children, rank, b) {
      SiblingWalksDisjoint(parent, children, rank, n, a, b, m);
    }
  }

  lemma NoDupConcat(a: seq<NodeId>, b: seq<NodeId>)
    requires NoDup(a) && NoDup(b)
    requires forall x :: x in a ==> x !in b
    ensures NoDup(a + b)
  {
    var s := a + b;
    forall i, j | 0 <= i < j < |s| ensures s[i] != s[j] {
      if j < |a| {
        assert s[i] == a[i] && s[j] == a[j];
      } else if i >= |a| {
        assert s[i] == b[i - |a|] && s[j] == b[j - |a|];
      } else {
        assert s[i] in a && s[j] in b;
      }
    }
  }

  /** A walk visits every node of the subtree exactly once. */
  lemma {:induction false} PreOrderNoDup(parent: map<NodeId, Option<NodeId>>, children: map<NodeId, seq<NodeId>>,
                                         rank: map<NodeId, nat>, x: NodeId)
    requires Linked(parent, children) && Ranked(children, rank) && x in children
    ensures NoDup(PreOrder(children, rank, x))
    decreases rank[x], 1, 0
  {
    var k := |children[x]|;
    ChildWalksNoDup(parent, children, rank, x, k);
    var walk := ChildWalks(children, rank, x, k);
    forall m | m in walk ensures m != x {
      var i := ChildWalkIndex(children, rank, x, k, m);
      PreOrderRank(children, rank, children[x][i], m);
    }
    NoDupConcat([x], walk);
  }

  /** The walks under the first `k` children of `x`, one after another, repeat no id. */
  lemma {:induction false} ChildWalksNoDup(parent: map<NodeId, Option<NodeId>>, children: map<NodeId, seq<NodeId>>,
                                           rank: map<NodeId, nat>, x: NodeId, k: nat)
    requires Linked(parent, children) && Ranked(children, rank) && x in children && k <= |children[x]|
    ensures NoDup(ChildWalks(children, rank, x, k))
    decreases rank[x], 0, k
  {
    if k > 0 {
      var cs := children[x];
      var last := cs[k - 1];
      ChildWalksNoDup(parent, children, rank, x, k - 1);
      PreOrderNoDup(parent, children, rank, last);
      var front := ChildWalks(children, rank, x, k - 1);
      forall m | m in front ensures m !in PreOrder(children, rank, last) {
        EarlierWalksApart(parent, children, rank, x, k - 1, m);
      }
      NoDupConcat(front, PreOrder(children, rank, last));
    }
  }

  /** An id in the walks under the first `k` children of `x` is not in the walk under
      child `k`. */
  lemma EarlierWalksApart(parent: map<NodeId, Option<NodeId>>, children: map<NodeId, seq<NodeId>>,
                          rank: map<NodeId, nat>, x: NodeId, k: nat, m: NodeId)
    requires Linked(parent, children) && Ranked(children, rank) && x in children && k < |children[x]|
    requires m in ChildWalks(children, rank, x, k)
    ensures m !in PreOrder(children, rank, children[x][k])
  {
    var cs := children[x];
    var i := ChildWalkIndex(children, rank, x, k, m);
    assert NoDup(cs);
    assert cs[i] in cs && cs[k] in cs && cs[i] != cs[k];
    SiblingWalksApart(parent, children, rank, x, cs[i], cs[k], m);
  }

  // ---------------------------------------------------------------------------------------
  // Attaching and detaching a child

  /** A new parentless, childless node keeps the two maps in agreement. */
  lemma AddRootLinked(parent: map<NodeId, Option<NodeId>>, children: map<NodeId, seq<NodeId>>, id: NodeId)
    requires Linked(parent, children) && id !in parent
    ensures Linked(parent[id := None], children[id := []])
  {
    var parent', children' := parent[id := None], children[id := []];
    forall q, z | q in children' && z in children'[q] ensures z in parent' && parent'[z] == Some(q) {
      assert q != id && z in children[q];
    }
  }

  /** A new childless node of rank 0 keeps the ranks valid. */
  lemma AddRootRanked(parent: map<NodeId, Option<NodeId>>, children: map<NodeId, seq<NodeId>>,
                      rank: map<NodeId, nat>, id: NodeId)
    requires Linked(parent, children) && id !in parent
    ensures Ranked(children, rank) ==> Ranked(children[id := []], rank[id := 0])
  {
    var children', rank' := children[id := []], rank[id := 0];
    if Ranked(children, rank) {
      forall q, z | q in children' && z in children'[q] ensures z in children' && rank'[z] < rank'[q] {
        assert q != id && z in children[q] && z in parent;
      }
    }
  }

  /** Attaching a parentless node `c` under `p` keeps the two maps in agreement. */
  lemma AttachLinked(parent: map<NodeId, Option<NodeId>>, children: map<NodeId, seq<NodeId>>, p: NodeId, c: NodeId)
    requires Linked(parent, children) && p in children && c in parent && parent[c] == None
    ensures Linked(parent[c := Some(p)], children[p := children[p] + [c]])
  {
    assert c !in children[p];
    NoDupConcat(children[p], [c]);
  }

  /** The ranks after attaching `c` under `p`: every node whose walk reaches `p` is raised
      by `rank[c] + 1`, which keeps the whole subtree of `c` below `p`. */
  ghost function AttachRank(children: map<NodeId, seq<NodeId>>, rank: map<NodeId, nat>, p: NodeId, c: NodeId): map<NodeId, nat>
    requires Ranked(children, rank) && c in children
  {
    map x | x in rank :: if x in children && p in PreOrder(children, rank, x) then rank[x] + rank[c] + 1 else rank[x]
  }

  /** The ranks kept after attaching `c` under `p`: raised by `AttachRank` when the result is
      still a forest, unchanged otherwise. */
  ghost function RankAfterAttach(children: map<NodeId, seq<NodeId>>, rank: map<NodeId, nat>, p: NodeId, c: NodeId): map<NodeId, nat>
  {
    if Ranked(children, rank) && p in children && c in children && p !in PreOrder(children, rank, c)
    then AttachRank(children, rank, p, c)
    else rank
  }

  /** `AttachRanked` for the ranks a scene keeps. */
  lemma AttachKeepsForest(children: map<NodeId, seq<NodeId>>, rank: map<NodeId, nat>, p: NodeId, c: NodeId)
    requires p in children && c in children
    ensures Ranked(children, rank) && p !in PreOrder(children, rank, c) ==>
      Ranked(children[p := children[p] + [c]], RankAfterAttach(children, rank, p, c))
  {
    if Ranked(children, rank) && p !in PreOrder(children, rank, c) {
      AttachRanked(children, rank, p, c);
    }
  }

  /** Attaching `c` under `p` keeps a forest a forest, unless `p` lies in the subtree of `c`. */
  lemma AttachRanked(children: map<NodeId, seq<NodeId>>, rank: map<NodeId, nat>, p: NodeId, c: NodeId)
    requires Ranked(children, rank) && p in children && c in children
    requires p !in PreOrder(children, rank, c)
    ensures Ranked(children[p := children[p] + [c]], AttachRank(children, rank, p, c))
  {
    var after := children[p := children[p] + [c]];
    var r := AttachRank(children, rank, p, c);
    assert p in PreOrder(children, rank, p);
    forall q, z | q in after && z in after[q] ensures z in after && r[z] < r[q] {
      if q == p && z !in children[p] {
        assert z == c;
      } else {
        assert z in children[q];
        var i :| 0 <= i < |children[q]| && children[q][i] == z;
        if p in PreOrder(children, rank, z) {
          ChildWalkIncluded(children, rank, q, i, z);
          SubtreeClosed(children, rank, q, z, p);
        }
      }
    }
  }

  /** Every entry of a shortened list was an entry of the original. */
  lemma RemoveFirstSubset(s: seq<NodeId>, x: NodeId, z: NodeId)
    ensures z in RemoveFirst(s, x) ==> z in s
    ensures z in s && z != x ==> z in RemoveFirst(s, x)
  {
    var r: seq<NodeId> := RemoveFirst(s, x);
    RemoveFirstCounts(s, x);
    var before: multiset<NodeId>, after: multiset<NodeId> := multiset(s), multiset(r);
    if z != x {
      assert after[z] == before[z];
    }
    if z in r {
      assert after[z] > 0;
    }
    if z in s {
      assert before[z] > 0;
    }
  }

  /** Detaching `c` from `p` (where it is listed) keeps the two maps in agreement. */
  lemma DetachLinked(parent: map<NodeId, Option<NodeId>>, children: map<NodeId, seq<NodeId>>, p: NodeId, c: NodeId)
    requires Linked(parent, children) && p in children && c in children[p]
    ensures Linked(parent[c := None], children[p := RemoveFirst(children[p], c)])
  {
    var parent', children' := parent[c := None], children[p := RemoveFirst(children[p], c)];
    RemoveFirstNoDup(children[p], c);
    forall q, z | q in children' && z in children'[q] ensures z in parent' && parent'[z] == Some(q) {
      if q == p {
        RemoveFirstSubset(children[p], c, z);
        assert z != c;
      } else {
        assert parent[c] == Some(p);
      }
    }
    forall z | z in parent' && parent'[z].Some? ensures parent'[z].value in children' && z in children'[parent'[z].value] {
      assert z != c && parent'[z] == parent[z];
      var q := parent[z].value;
      assert z in children[q];
      if q == p {
        RemoveFirstSubset(children[p], c, z);
        assert z in children'[q];
      } else {
        assert children'[q] == children[q];
      }
      assert q in children';
    }
  }

  /** Detaching a child keeps the ranks valid. */
  lemma DetachRanked(children: map<NodeId, seq<NodeId>>, rank: map<NodeId, nat>, p: NodeId, c: NodeId)
    requires p in children
    ensures Ranked(children, rank) ==> Ranked(children[p := RemoveFirst(children[p], c)], rank)
  {
    var children' := children[p := RemoveFirst(children[p], c)];
    if Ranked(children, rank) {
      forall q, z | q in children' && z in children'[q] ensures z in children' && rank[z] < rank[q] {
        DetachRankedEdge(children, rank, p, c, q, z);
      }
    }
  }

  /** One edge of the detached forest is an edge of the original. */
  lemma DetachRankedEdge(children: map<NodeId, seq<NodeId>>, rank: map<NodeId, nat>, p: NodeId, c: NodeId,
                         q: NodeId, z: NodeId)
    requires Ranked(children, rank) && p in children && q in children
    requires z in children[p := RemoveFirst(children[p], c)][q]
    ensures z in children && rank[z] < rank[q]
  {
    if q == p {
      RemoveFirstSubset(children[p], c, z);
    }
  }

  /** The nodes whose parent is `n`. */
  ghost function ParentedBy(parent: map<NodeId, Option<NodeId>>, n: NodeId): set<NodeId>
  {
    set m | m in parent && parent[m] == Some(n)
  }

  /** The child list of `n` holds exactly the nodes whose parent is `n`, each once. */
  lemma ChildCount(parent: map<NodeId, Option<NodeId>>, children: map<NodeId, seq<NodeId>>, n: NodeId)
    requires Linked(parent, children) && n in children
    ensures |children[n]| == |ParentedBy(parent, n)|
  {
    DistinctCount(children[n]);
    assert Elements(children[n]) == ParentedBy(parent, n);
  }

  // ---------------------------------------------------------------------------------------
  // Child lists

  /** `List<T>.Remove(x)`: drops the first occurrence of `x`, if any. */
  function RemoveFirst(s: seq<NodeId>, x: NodeId): (r: seq<NodeId>)
    ensures x !in s ==> r == s
    ensures x in s ==> |r| == |s| - 1
  {
    if s == [] then []
    else if s[0] == x then s[1..]
    else [s[0]] + RemoveFirst(s[1..], x)
  }

  /** `List.Remove` takes out the FIRST occurrence and keeps the rest in order: when `x`
      first occurs at `i`, the result is the list with position `i` cut out. */
  lemma {:induction false} RemoveFirstKeepsOrder(s: seq<NodeId>, x: NodeId, i: nat)
    requires i < |s| && s[i] == x && x !in s[..i]
    ensures RemoveFirst(s, x) == s[..i] + s[i + 1..]
  {
    if i > 0 {
      assert s[0] != x by { assert s[0] in s[..i]; }
      assert x !in s[1..][..i - 1] by { assert s[1..][..i - 1] == s[1..i]; }
      RemoveFirstKeepsOrder(s[1..], x, i - 1);
      assert s[..i] == [s[0]] + s[1..][..i - 1];
      assert s[i + 1..] == s[1..][i..];
    }
  }

  /** `Remove` takes exactly one `x` out of the list when there is one, and nothing else. */
  lemma {:induction false} RemoveFirstCounts(s: seq<NodeId>, x: NodeId)
    ensures multiset(RemoveFirst(s, x)) == multiset(s) - multiset{x}
  {
    if s != [] {
      assert s == [s[0]] + s[1..];
      if s[0] != x {
        RemoveFirstCounts(s[1..], x);
      }
    }
  }

  /** Removing from a list without repeats leaves a list without repeats and without `x`. */
  lemma {:induction false} RemoveFirstNoDup(s: seq<NodeId>, x: NodeId)
    requires NoDup(s)
    ensures NoDup(RemoveFirst(s, x)) && x !in RemoveFirst(s, x)
  {
    if s != [] {
      var tail := s[1..];
      assert NoDup(tail);
      assert s[0] !in tail;
      if s[0] != x {
        RemoveFirstNoDup(tail, x);
        var rest := RemoveFirst(tail, x);
        RemoveFirstCounts(tail, x);
        assert multiset(tail)[s[0]] == 0;
        assert s[0] !in multiset(rest);
        var r := [s[0]] + rest;
        assert r == RemoveFirst(s, x);
        forall i, j | 0 <= i < j < |r| ensures r[i] != r[j] {
          if i > 0 {
            assert r[i] == rest[i - 1] && r[j] == rest[j - 1];
          } else {
            assert r[j] in rest;
          }
        }
      }
    }
  }

  /** The ids in a list, as a set. */
  function Elements(s: seq<NodeId>): set<NodeId>
  {
    set x | x in s
  }

  /** A list without repeats has as many entries as distinct ids. */
  lemma {:induction false} DistinctCount(s: seq<NodeId>)
    requires NoDup(s)
    ensures |Elements(s)| == |s|
  {
    if s != [] {
      var tail := s[1..];
      assert NoDup(tail);
      DistinctCount(tail);
      assert s == [s[0]] + tail;
      assert Elements(s) == {s[0]} + Elements(tail);
      assert s[0] !in Elements(tail);
    }
  }
}
