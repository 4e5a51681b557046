/** The rooted flow tree of pkg/tree/tree.go: the node arena, the level index
    (`nodesByLevel`), `LeafsLevel`, and the traversals used by the generator. */
module PkgTree {
  import opened Wrappers
  import opened NodeArena

  /** A directed parent-to-child edge between two topology labels. */
  datatype Edge = Edge(src: string, dst: string)

  /** The level index entry for `l`; a missing key reads as Go's nil slice. */
  function AtLevel(byLevel: map<int, seq<nat>>, l: int): seq<nat>
  {
    if l in byLevel then byLevel[l] else []
  }

  ghost predicate IndexInRange(nodes: seq<Node>, byLevel: map<int, seq<nat>>)
  {
    forall l, k :: l in byLevel && 0 <= k < |byLevel[l]| ==> byLevel[l][k] < |nodes|
  }

  /** Every non-root node hangs one level below its parent. */
  ghost predicate LevelsFollowParents(nodes: seq<Node>)
    requires Wf(nodes)
  {
    && (forall j :: 0 < j < |nodes| ==> nodes[j].parent.Some?)
    && (forall j {:trigger nodes[j].parent} :: 0 <= j < |nodes| && nodes[j].parent.Some? ==>
          nodes[j].level == nodes[nodes[j].parent.value].level + 1)
  }

  /** The level index lists each node under its own level, and every node is listed. */
  ghost predicate IndexExact(nodes: seq<Node>, byLevel: map<int, seq<nat>>)
    requires IndexInRange(nodes, byLevel)
  {
    && (forall l, k :: l in byLevel && 0 <= k < |byLevel[l]| ==> nodes[byLevel[l][k]].level == l)
    && (forall j {:trigger AtLevel(byLevel, nodes[j].level)} :: 0 <= j < |nodes| ==> j in AtLevel(byLevel, nodes[j].level))
  }

  /** No level lists a node twice. */
  ghost predicate ListedOnce(byLevel: map<int, seq<nat>>)
  {
    forall l, i, j :: l in byLevel && 0 <= i < j < |byLevel[l]| ==> byLevel[l][i] != byLevel[l][j]
  }

  /** `LeafsLevel` is the deepest level present. */
  ghost predicate DeepestLevel(nodes: seq<Node>, byLevel: map<int, seq<nat>>, leafsLevel: int)
  {
    && (forall j :: 0 <= j < |nodes| ==> 1 <= nodes[j].level <= leafsLevel)
    && |AtLevel(byLevel, leafsLevel)| > 0
  }

  /** The shape a tree has when every node was attached with `AddChild` and then
      registered with `AddNode` (as the generator does): every non-root node has a
      parent one level up, the level index lists exactly the nodes of each level,
      each of them once, and `LeafsLevel` is the deepest level present. */
  ghost predicate Layered(nodes: seq<Node>, byLevel: map<int, seq<nat>>, leafsLevel: int)
  {
    && |nodes| >= 1 && Wf(nodes) && IndexInRange(nodes, byLevel)
    && nodes[0].parent.None? && nodes[0].level == 1
    && LevelsFollowParents(nodes)
    && IndexExact(nodes, byLevel) && ListedOnce(byLevel)
    && DeepestLevel(nodes, byLevel, leafsLevel)
  }

  /** The arena after a fresh `child` has been appended as the last child of `p`. */
  ghost function Grow(nodes: seq<Node>, p: nat, child: Node): (r: seq<Node>)
    requires p < |nodes|
    ensures |r| == |nodes| + 1 && r[|nodes|] == child
    ensures r[p] == nodes[p].(children := nodes[p].children + [|nodes|])
    ensures forall j :: 0 <= j < |nodes| && j != p ==> r[j] == nodes[j]
    ensures forall j :: 0 <= j < |nodes| ==> r[j].level == nodes[j].level && r[j].parent == nodes[j].parent
  {
    nodes[p := nodes[p].(children := nodes[p].children + [|nodes|])] + [child]
  }

  lemma WfGrow(nodes: seq<Node>, p: nat, child: Node)
    requires Wf(nodes) && p < |nodes|
    requires child.parent == Some(p) && child.children == []
    ensures Wf(Grow(nodes, p, child))
  {
    var nodes' := Grow(nodes, p, child);
    var id := |nodes|;
    forall i, k | 0 <= i < |nodes'| && 0 <= k < |nodes'[i].children|
      ensures i < nodes'[i].children[k] < |nodes'| && nodes'[nodes'[i].children[k]].parent == Some(i)
    {
      if i == p && k == |nodes[p].children| {
        assert nodes'[i].children[k] == id;
      } else {
        assert nodes'[i].children[k] == nodes[i].children[k];
      }
    }
    forall j | 0 <= j < |nodes'| && nodes'[j].parent.Some?
      ensures nodes'[j].parent.value < j && j in nodes'[nodes'[j].parent.value].children
    {
      if j < id {
        var q := nodes[j].parent.value;
        assert j in nodes[q].children;
        assert nodes[q].children <= nodes'[q].children;
      } else {
        assert nodes'[p].children[|nodes[p].children|] == id;
      }
    }
  }

  lemma LevelsGrow(nodes: seq<Node>, p: nat, child: Node)
    requires Wf(nodes) && LevelsFollowParents(nodes) && p < |nodes|
    requires child.parent == Some(p) && child.children == [] && child.level == nodes[p].level + 1
    ensures Wf(Grow(nodes, p, child)) && LevelsFollowParents(Grow(nodes, p, child))
  {
    WfGrow(nodes, p, child);
    var g := Grow(nodes, p, child);
    forall j | 0 <= j < |g| && g[j].parent.Some?
      ensures g[j].level == g[g[j].parent.value].level + 1
    {
      if j < |nodes| {
        assert g[j].parent == nodes[j].parent && nodes[j].parent.value < |nodes|;
      }
    }
  }

  /** Registering the newly appended node under its level keeps the index
      exact: every node listed under its own level, every node listed, none
      listed twice. */
  lemma IndexGrow(nodes: seq<Node>, byLevel: map<int, seq<nat>>, p: nat, child: Node)
    requires IndexInRange(nodes, byLevel) && IndexExact(nodes, byLevel) && ListedOnce(byLevel) && p < |nodes|
    ensures var l := child.level;
            var byLevel' := byLevel[l := AtLevel(byLevel, l) + [|nodes|]];
            && IndexInRange(Grow(nodes, p, child), byLevel') && IndexExact(Grow(nodes, p, child), byLevel')
            && ListedOnce(byLevel')
  {
    ExactGrow(nodes, byLevel, p, child);
    OnceGrow(nodes, byLevel, child.level);
  }

  /** Registering the newly appended node under its level keeps every node
      listed, and listed under its own level. */
  lemma ExactGrow(nodes: seq<Node>, byLevel: map<int, seq<nat>>, p: nat, child: Node)
    requires IndexInRange(nodes, byLevel) && IndexExact(nodes, byLevel) && p < |nodes|
    ensures var l := child.level;
            var byLevel' := byLevel[l := AtLevel(byLevel, l) + [|nodes|]];
            IndexInRange(Grow(nodes, p, child), byLevel') && IndexExact(Grow(nodes, p, child), byLevel')
  {
    var l := child.level;
    var id := |nodes|;
    var nodes' := Grow(nodes, p, child);
    var byLevel' := byLevel[l := AtLevel(byLevel, l) + [id]];
    forall l', k | l' in byLevel' && 0 <= k < |byLevel'[l']|
      ensures byLevel'[l'][k] < |nodes'| && nodes'[byLevel'[l'][k]].level == l'
    {
      if l' != l {
        assert byLevel'[l'] == byLevel[l'];
      } else if k < |AtLevel(byLevel, l)| {
        assert byLevel'[l'][k] == byLevel[l'][k];
      } else {
        assert byLevel'[l'][k] == id;
      }
    }
    forall j | 0 <= j < |nodes'|
      ensures j in AtLevel(byLevel', nodes'[j].level)
    {
      if j < id {
        var lj := nodes[j].level;
        assert j in AtLevel(byLevel, lj);
        if lj == l {
          assert AtLevel(byLevel', lj) == AtLevel(byLevel, lj) + [id];
        } else {
          assert AtLevel(byLevel', lj) == AtLevel(byLevel, lj);
        }
      } else {
        assert AtLevel(byLevel', l) == AtLevel(byLevel, l) + [id];
      }
    }
  }

  /** Appending a node's index that no level lists yet keeps every level free of
      repeats. */
  lemma OnceGrow(nodes: seq<Node>, byLevel: map<int, seq<nat>>, l: int)
    requires IndexInRange(nodes, byLevel) && ListedOnce(byLevel)
    ensures ListedOnce(byLevel[l := AtLevel(byLevel, l) + [|nodes|]])
  {
    var byLevel' := byLevel[l := AtLevel(byLevel, l) + [|nodes|]];
    forall l', i, j | l' in byLevel' && 0 <= i < j < |byLevel'[l']|
      ensures byLevel'[l'][i] != byLevel'[l'][j]
    {
      if l' != l {
        assert byLevel'[l'] == byLevel[l'];
      } else if j < |AtLevel(byLevel, l)| {
        assert byLevel'[l'][i] == byLevel[l'][i] && byLevel'[l'][j] == byLevel[l'][j];
      } else {
        assert byLevel'[l'][i] == AtLevel(byLevel, l)[i] < |nodes|;
      }
    }
  }

  lemma DeepestGrow(nodes: seq<Node>, byLevel: map<int, seq<nat>>, leafsLevel: int, p: nat, child: Node)
    requires DeepestLevel(nodes, byLevel, leafsLevel) && p < |nodes| && child.level >= 1
    ensures var l := child.level;
            DeepestLevel(Grow(nodes, p, child), byLevel[l := AtLevel(byLevel, l) + [|nodes|]],
                         if l > leafsLevel then l else leafsLevel)
  {
    var l := child.level;
    var byLevel' := byLevel[l := AtLevel(byLevel, l) + [|nodes|]];
    if l < leafsLevel {
      assert AtLevel(byLevel', leafsLevel) == AtLevel(byLevel, leafsLevel);
    } else {
      assert AtLevel(byLevel', l) == AtLevel(byLevel, l) + [|nodes|];
    }
  }

  /** Attaching a new child of `p` and registering it one level below `p` keeps
      the tree layered; `LeafsLevel` becomes the larger of the two. */
  lemma LayeredGrow(nodes: seq<Node>, byLevel: map<int, seq<nat>>, leafsLevel: int, p: nat, child: Node)
    requires Layered(nodes, byLevel, leafsLevel) && p < |nodes|
    requires child.parent == Some(p) && child.children == [] && child.level == nodes[p].level + 1
    ensures var l := child.level;
            Layered(Grow(nodes, p, child), byLevel[l := AtLevel(byLevel, l) + [|nodes|]],
                    if l > leafsLevel then l else leafsLevel)
  {
    LevelsGrow(nodes, p, child);
    IndexGrow(nodes, byLevel, p, child);
    DeepestGrow(nodes, byLevel, leafsLevel, p, child);
  }

  /** Two arenas with the same shape: parents, children and levels agree. */
  ghost predicate SameShape(nodes: seq<Node>, nodes': seq<Node>)
  {
    && |nodes'| == |nodes|
    && forall j :: 0 <= j < |nodes| ==>
         nodes'[j].parent == nodes[j].parent && nodes'[j].children == nodes[j].children
         && nodes'[j].level == nodes[j].level
  }

  lemma WfSameShape(nodes: seq<Node>, nodes': seq<Node>)
    requires Wf(nodes) && SameShape(nodes, nodes')
    ensures Wf(nodes')
  {
    forall i, k | 0 <= i < |nodes'| && 0 <= k < |nodes'[i].children|
      ensures i < nodes'[i].children[k] < |nodes'| && nodes'[nodes'[i].children[k]].parent == Some(i)
    {
      assert nodes'[i].children[k] == nodes[i].children[k];
    }
  }

  lemma LevelsSameShape(nodes: seq<Node>, nodes': seq<Node>)
    requires Wf(nodes) && LevelsFollowParents(nodes) && SameShape(nodes, nodes')
    ensures Wf(nodes') && LevelsFollowParents(nodes')
  {
    WfSameShape(nodes, nodes');
  }

  lemma IndexSameShape(nodes: seq<Node>, nodes': seq<Node>, byLevel: map<int, seq<nat>>)
    requires IndexInRange(nodes, byLevel) && IndexExact(nodes, byLevel) && SameShape(nodes, nodes')
    ensures IndexInRange(nodes', byLevel) && IndexExact(nodes', byLevel)
  {
  }

  lemma DeepestSameShape(nodes: seq<Node>, nodes': seq<Node>, byLevel: map<int, seq<nat>>, leafsLevel: int)
    requires DeepestLevel(nodes, byLevel, leafsLevel) && SameShape(nodes, nodes')
    ensures DeepestLevel(nodes', byLevel, leafsLevel)
  {
  }

  /** Changing a node's name, label or timestamps keeps the tree layered. */
  lemma LayeredRestamp(nodes: seq<Node>, byLevel: map<int, seq<nat>>, leafsLevel: int, i: nat, x: Node)
    requires Layered(nodes, byLevel, leafsLevel) && i < |nodes|
    requires x.parent == nodes[i].parent && x.children == nodes[i].children && x.level == nodes[i].level
    ensures Layered(nodes[i := x], byLevel, leafsLevel)
  {
    var nodes' := nodes[i := x];
    forall j | 0 <= j < |nodes|
      ensures nodes'[j].parent == nodes[j].parent && nodes'[j].children == nodes[j].children
              && nodes'[j].level == nodes[j].level
    {
    }
    LevelsSameShape(nodes, nodes');
    IndexSameShape(nodes, nodes', byLevel);
    DeepestSameShape(nodes, nodes', byLevel, leafsLevel);
  }

  /** The paths `ps`, each extended by `x` at its end. */
  function Extend(ps: seq<seq<nat>>, x: nat): (r: seq<seq<nat>>)
    ensures |r| == |ps|
    ensures forall k :: 0 <= k < |ps| ==> r[k] == ps[k] + [x]
  {
    seq(|ps|, k requires 0 <= k < |ps| => ps[k] + [x])
  }

  /** The leaf-to-`n` paths of the subtree at `n`, leaves taken left to right. */
  ghost function Paths(nodes: seq<Node>, n: nat): seq<seq<nat>>
    requires Wf(nodes) && n < |nodes|
    decreases |nodes| - n, 1
  {
    if nodes[n].children == [] then [[n]] else PathsKids(nodes, n, 0)
  }

  ghost function PathsKids(nodes: seq<Node>, p: nat, i: nat): seq<seq<nat>>
    requires Wf(nodes) && p < |nodes| && i <= |nodes[p].children|
    decreases |nodes| - p, 0, |nodes[p].children| - i
  {
    if i == |nodes[p].children| then []
    else Extend(Paths(nodes, nodes[p].children[i]), p) + PathsKids(nodes, p, i + 1)
  }

  /** The nodes of `s` that have no children, in order. */
  ghost function LeafFilter(nodes: seq<Node>, s: seq<nat>): (r: seq<nat>)
    requires InRange(nodes, s)
  {
    if s == [] then []
    else (if nodes[s[0]].children == [] then [s[0]] else []) + LeafFilter(nodes, s[1..])
  }

  lemma {:induction false} LeafFilterAppend(nodes: seq<Node>, a: seq<nat>, b: seq<nat>)
    requires InRange(nodes, a) && InRange(nodes, b)
    ensures InRange(nodes, a + b)
    ensures LeafFilter(nodes, a + b) == LeafFilter(nodes, a) + LeafFilter(nodes, b)
  {
    if a == [] {
      assert a + b == b;
    } else {
      assert (a + b)[0] == a[0] && (a + b)[1..] == a[1..] + b;
      LeafFilterAppend(nodes, a[1..], b);
      var head := if nodes[a[0]].children == [] then [a[0]] else [];
      assert LeafFilter(nodes, a + b) == head + LeafFilter(nodes, a[1..] + b);
      assert LeafFilter(nodes, a) == head + LeafFilter(nodes, a[1..]);
    }
  }

  /** The leaves of the subtree at `n`, left to right. */
  ghost function Leaves(nodes: seq<Node>, n: nat): seq<nat>
    requires Wf(nodes) && n < |nodes|
  {
    LeafFilter(nodes, Preorder(nodes, n))
  }

  /** `q` runs from a leaf up, child to parent, and ends at `n`. */
  ghost predicate LeafPath(nodes: seq<Node>, q: seq<nat>, n: nat)
  {
    && |q| >= 1 && q[|q| - 1] == n && InRange(nodes, q)
    && nodes[q[0]].children == []
    && forall i :: 0 <= i < |q| - 1 ==> nodes[q[i]].parent == Some(q[i + 1])
  }

  /** `DFS` yields exactly one path per leaf, in left-to-right leaf order; each
      starts at its leaf and climbs parent by parent to the start node. */
  lemma {:induction false} DfsPaths(nodes: seq<Node>, n: nat)
    requires Wf(nodes) && n < |nodes|
    ensures |Paths(nodes, n)| == |Leaves(nodes, n)|
    ensures forall k :: 0 <= k < |Paths(nodes, n)| ==>
              LeafPath(nodes, Paths(nodes, n)[k], n) && Paths(nodes, n)[k][0] == Leaves(nodes, n)[k]
    decreases |nodes| - n, 1
  {
    LeafFilterAppend(nodes, [n], PreorderKids(nodes, n, 0));
    if nodes[n].children != [] {
      DfsPathsKids(nodes, n, 0);
    }
  }

  lemma {:induction false} DfsPathsKids(nodes: seq<Node>, p: nat, i: nat)
    requires Wf(nodes) && p < |nodes| && i <= |nodes[p].children|
    ensures |PathsKids(nodes, p, i)| == |LeafFilter(nodes, PreorderKids(nodes, p, i))|
    ensures forall k :: 0 <= k < |PathsKids(nodes, p, i)| ==>
              LeafPath(nodes, PathsKids(nodes, p, i)[k], p) &&
              PathsKids(nodes, p, i)[k][0] == LeafFilter(nodes, PreorderKids(nodes, p, i))[k]
    decreases |nodes| - p, 0, |nodes[p].children| - i
  {
    if i < |nodes[p].children| {
      var c := nodes[p].children[i];
      DfsPaths(nodes, c);
      DfsPathsKids(nodes, p, i + 1);
      LeafFilterAppend(nodes, Preorder(nodes, c), PreorderKids(nodes, p, i + 1));
      ExtendLeafPaths(nodes, c, p);
      assert PathsKids(nodes, p, i) == Extend(Paths(nodes, c), p) + PathsKids(nodes, p, i + 1);
    }
  }

  /** Extending a child's leaf paths by its parent gives leaf paths of the parent. */
  lemma ExtendLeafPaths(nodes: seq<Node>, c: nat, p: nat)
    requires Wf(nodes) && c < |nodes| && p < |nodes| && nodes[c].parent == Some(p)
    requires forall k :: 0 <= k < |Paths(nodes, c)| ==> LeafPath(nodes, Paths(nodes, c)[k], c)
    ensures forall k :: 0 <= k < |Paths(nodes, c)| ==>
              LeafPath(nodes, Extend(Paths(nodes, c), p)[k], p) && Extend(Paths(nodes, c), p)[k][0] == Paths(nodes, c)[k][0]
  {
    var front := Extend(Paths(nodes, c), p);
    forall k | 0 <= k < |front|
      ensures LeafPath(nodes, front[k], p) && front[k][0] == Paths(nodes, c)[k][0]
    {
      var q := Paths(nodes, c)[k];
      assert LeafPath(nodes, q, c);
      assert front[k] == q + [p];
    }
  }

  /** Along a leaf path of a layered tree each step climbs one level, so a path
      from a leaf to the root has as many entries as the leaf's level. */
  lemma PathLength(nodes: seq<Node>, byLevel: map<int, seq<nat>>, leafsLevel: int, q: seq<nat>, n: nat)
    requires Layered(nodes, byLevel, leafsLevel) && LeafPath(nodes, q, n)
    ensures |q| == nodes[q[0]].level - nodes[n].level + 1
  {
    ChainLength(nodes, q, n);
  }

  /** The same count for any child-to-parent chain, leaf or not. */
  lemma {:induction false} ChainLength(nodes: seq<Node>, q: seq<nat>, n: nat)
    requires Wf(nodes) && LevelsFollowParents(nodes)
    requires |q| >= 1 && q[|q| - 1] == n && InRange(nodes, q)
    requires forall i :: 0 <= i < |q| - 1 ==> nodes[q[i]].parent == Some(q[i + 1])
    ensures |q| == nodes[q[0]].level - nodes[n].level + 1
    decreases |q|
  {
    if |q| > 1 {
      var q' := q[1..];
      assert forall i :: 0 <= i < |q'| - 1 ==> nodes[q'[i]].parent == Some(q'[i + 1]) by {
        forall i | 0 <= i < |q'| - 1 ensures nodes[q'[i]].parent == Some(q'[i + 1]) {
          assert q'[i] == q[i + 1] && q'[i + 1] == q[i + 2];
        }
      }
      ChainLength(nodes, q', n);
      assert nodes[q[0]].parent == Some(q[1]);
    }
  }

  /** The edges of one leaf path, root end first: entry `i` joins the labels of
      positions `|v|-1-i` and `|v|-2-i`. */
  ghost function PathEdges(nodes: seq<Node>, v: seq<nat>): (r: seq<Edge>)
    requires InRange(nodes, v)
  {
    seq(if |v| >= 1 then |v| - 1 else 0,
        i requires 0 <= i < |v| - 1 => Edge(nodes[v[|v| - 1 - i]].tag, nodes[v[|v| - 2 - i]].tag))
  }

  /** `Tree.Edges`: one edge list per DFS path from the root. */
  ghost function TreeEdges(nodes: seq<Node>): seq<seq<Edge>>
    requires Wf(nodes) && |nodes| >= 1
  {
    DfsPaths(nodes, 0);
    var paths := Paths(nodes, 0);
    seq(|paths|, k requires 0 <= k < |paths| => PathEdges(nodes, paths[k]))
  }

  /** Each edge list of the root's paths starts at the root's label, links
      consecutive edges head to tail, ends at its leaf's label, and every edge
      joins a node's parent's label to the node's own label. */
  lemma EdgesChain(nodes: seq<Node>, k: nat)
    requires Wf(nodes) && |nodes| >= 1 && k < |Paths(nodes, 0)|
    ensures |TreeEdges(nodes)| == |Paths(nodes, 0)| == |Leaves(nodes, 0)|
    ensures LeafPath(nodes, Paths(nodes, 0)[k], 0) && Paths(nodes, 0)[k][0] == Leaves(nodes, 0)[k]
    ensures var q := Paths(nodes, 0)[k];
            |TreeEdges(nodes)[k]| == |q| - 1
    ensures var q := Paths(nodes, 0)[k];
            var pe := TreeEdges(nodes)[k];
            |pe| > 0 ==> pe[0].src == nodes[0].tag && pe[|pe| - 1].dst == nodes[q[0]].tag
    ensures var pe := TreeEdges(nodes)[k];
            forall i :: 0 <= i < |pe| - 1 ==> pe[i].dst == pe[i + 1].src
    ensures var q := Paths(nodes, 0)[k];
            var pe := TreeEdges(nodes)[k];
            forall i :: 0 <= i < |pe| ==>
              && nodes[q[|q| - 2 - i]].parent == Some(q[|q| - 1 - i])
              && pe[i] == Edge(nodes[q[|q| - 1 - i]].tag, nodes[q[|q| - 2 - i]].tag)
  {
    DfsPaths(nodes, 0);
    var q := Paths(nodes, 0)[k];
    var pe := TreeEdges(nodes)[k];
    assert pe == PathEdges(nodes, q);
    LeafPathEdges(nodes, q, 0);
  }

  /** In a layered tree each leaf's edge list has one edge per level below the
      root: the path from leaf `k` to the root holds as many nodes as the
      leaf's level. */
  lemma EdgesPerLevel(nodes: seq<Node>, byLevel: map<int, seq<nat>>, leafsLevel: int, k: nat)
    requires Layered(nodes, byLevel, leafsLevel) && k < |Leaves(nodes, 0)|
    ensures |TreeEdges(nodes)| == |Leaves(nodes, 0)| && Leaves(nodes, 0)[k] < |nodes|
    ensures |TreeEdges(nodes)[k]| == nodes[Leaves(nodes, 0)[k]].level - 1 <= leafsLevel - 1
  {
    DfsPaths(nodes, 0);
    EdgesChain(nodes, k);
    PathLength(nodes, byLevel, leafsLevel, Paths(nodes, 0)[k], 0);
  }

  /** The edges of a path from a leaf up to `n`, listed from `n` down. */
  lemma LeafPathEdges(nodes: seq<Node>, q: seq<nat>, n: nat)
    requires LeafPath(nodes, q, n)
    ensures var pe := PathEdges(nodes, q);
            && |pe| == |q| - 1
            && (|pe| > 0 ==> pe[0].src == nodes[n].tag && pe[|pe| - 1].dst == nodes[q[0]].tag)
            && (forall i :: 0 <= i < |pe| - 1 ==> pe[i].dst == pe[i + 1].src)
            && forall i :: 0 <= i < |pe| ==>
                 && nodes[q[|q| - 2 - i]].parent == Some(q[|q| - 1 - i])
                 && pe[i] == Edge(nodes[q[|q| - 1 - i]].tag, nodes[q[|q| - 2 - i]].tag)
  {
    var pe := PathEdges(nodes, q);
    assert |pe| == |q| - 1;
    forall i | 0 <= i < |pe|
      ensures nodes[q[|q| - 2 - i]].parent == Some(q[|q| - 1 - i])
      ensures pe[i] == Edge(nodes[q[|q| - 1 - i]].tag, nodes[q[|q| - 2 - i]].tag)
    {
      var j := |q| - 2 - i;
      assert nodes[q[j]].parent == Some(q[j + 1]);
    }
    forall i | 0 <= i < |pe| - 1
      ensures pe[i].dst == pe[i + 1].src
    {
      assert pe[i].dst == nodes[q[|q| - 2 - i]].tag == pe[i + 1].src;
    }
  }

  /** `NewNode`: a detached node with no parent, no children, level 0 and both
      timestamps unset (Go's zero time). */
  function NewNode(name: string, tag: string): (n: Node)
    ensures n.parent.None? && n.children == [] && n.level == 0
    ensures n.ingress.Unset? && n.egress.Unset?
  {
    Node(name, tag, None, [], 0, Unset, Unset)
  }

  /** The inner loop of `DFS`: each of the child's paths, extended by the
      current node, is appended to `r`. */
  method AppendExtended(r: seq<seq<nat>>, ps: seq<seq<nat>>, x: nat) returns (r': seq<seq<nat>>)
    ensures r' == r + Extend(ps, x)
  {
    r' := r;
    for j := 0 to |ps|
      invariant r' == r + Extend(ps[..j], x)
    {
      assert Extend(ps[..j + 1], x) == Extend(ps[..j], x) + [ps[j] + [x]];
      r' := r' + [ps[j] + [x]];
    }
    assert ps[..|ps|] == ps;
  }

  /** The recursion of `DFS`: a leaf yields its own one-node path; an inner
      node extends every path of each child, child by child, with itself. */
  method CollectPaths(nodes: seq<Node>, n: nat) returns (r: seq<seq<nat>>)
    requires Wf(nodes) && n < |nodes|
    ensures r == Paths(nodes, n)
    decreases |nodes| - n, 1
  {
    var kids := nodes[n].children;
    if |kids| > 0 {
      r := [];
      for i := 0 to |kids|
        invariant r + PathsKids(nodes, n, i) == PathsKids(nodes, n, 0)
      {
        r := CollectKid(nodes, n, i, r);
      }
    } else {
      r := [[n]];
    }
  }

  /** One turn of `DFS`'s loop over the children: the paths of child `i`,
      each extended by `n`, appended to `r`. */
  method CollectKid(nodes: seq<Node>, n: nat, i: nat, r: seq<seq<nat>>) returns (r': seq<seq<nat>>)
    requires Wf(nodes) && n < |nodes| && i < |nodes[n].children|
    ensures r' + PathsKids(nodes, n, i + 1) == r + PathsKids(nodes, n, i)
    decreases |nodes| - n, 0
  {
    var childrenList := CollectPaths(nodes, nodes[n].children[i]);
    r' := AppendExtended(r, childrenList, n);
    var rest := PathsKids(nodes, n, i + 1);
    assert PathsKids(nodes, n, i) == Extend(childrenList, n) + rest;
    ConcatAssoc(r, Extend(childrenList, n), rest);
  }

  lemma ConcatAssoc<T>(a: seq<T>, b: seq<T>, c: seq<T>)
    ensures (a + b) + c == a + (b + c)
  {
  }

  /** The flow tree: the arena (index 0 is `Root`), the level index and the
      deepest level reached. */
  class Tree {
    var nodes: seq<Node>
    var byLevel: map<int, seq<nat>>
    var leafsLevel: int

    ghost predicate Valid()
      reads this
    {
      && |nodes| >= 1 && nodes[0].parent.None? && nodes[0].level == 1
      && Wf(nodes) && IndexInRange(nodes, byLevel) && leafsLevel >= 1
    }

    /** `NewTree(NewNode(rootName, rootTag))`: the root at level 1, alone in the
        level index, `LeafsLevel` 1. */
    constructor (rootName: string, rootTag: string)
      ensures Valid()
      ensures nodes == [Node(rootName, rootTag, None, [], 1, Unset, Unset)]
      ensures byLevel == map[1 := [0]] && leafsLevel == 1
      ensures Layered(nodes, byLevel, leafsLevel)
    {
      nodes := [Node(rootName, rootTag, None, [], 1, Unset, Unset)];
      byLevel := map[1 := [0]];
      leafsLevel := 1;
    }

    /** Assigns a node's `TimeOfIngress`. */
    method SetIngress(id: nat, s: Stamp)
      requires Valid() && id < |nodes|
      modifies this
      ensures Valid()
      ensures nodes == old(nodes)[id := old(nodes)[id].(ingress := s)]
      ensures byLevel == old(byLevel) && leafsLevel == old(leafsLevel)
    {
      nodes := nodes[id := nodes[id].(ingress := s)];
    }

    /** `p.AddChild(c)` for a fresh node `c`: `c` enters the tree with `p` as its
        parent and is appended after `p`'s existing children, which stay as
        they were; nothing else changes. */
    method AddChild(p: nat, c: Node) returns (id: nat)
      requires Valid() && p < |nodes| && c.children == []
      modifies this
      ensures Valid()
      ensures id == |old(nodes)| && nodes == Grow(old(nodes), p, c.(parent := Some(p)))
      ensures nodes[p].children == old(nodes)[p].children + [id] && nodes[id].parent == Some(p)
      ensures byLevel == old(byLevel) && leafsLevel == old(leafsLevel)
    {
      WfGrow(nodes, p, c.(parent := Some(p)));
      id := |nodes|;
      nodes := nodes[p := nodes[p].(children := nodes[p].children + [id])] + [c.(parent := Some(p))];
    }

    /** `AddNode`: the node goes one level below its parent, at the end of that
        level's list; no other level list changes and `LeafsLevel` only grows. */
    method AddNode(n: nat)
      requires Valid() && n < |nodes| && nodes[n].parent.Some?
      modifies this
      ensures Valid()
      ensures var l := old(nodes)[old(nodes)[n].parent.value].level + 1;
              && nodes == old(nodes)[n := old(nodes)[n].(level := l)]
              && byLevel == old(byLevel)[l := AtLevel(old(byLevel), l) + [n]]
              && (forall l' :: l' != l ==> AtLevel(byLevel, l') == AtLevel(old(byLevel), l'))
              && leafsLevel == (if l > old(leafsLevel) then l else old(leafsLevel))
      ensures leafsLevel >= old(leafsLevel)
    {
      var l := nodes[nodes[n].parent.value].level + 1;
      nodes := nodes[n := nodes[n].(level := l)];
      byLevel := byLevel[l := AtLevel(byLevel, l) + [n]];
      if l > leafsLevel {
        leafsLevel := l;
      }
    }

    /** `FindNodeByLevel`: the earliest-inserted node of that level carrying the
        label, or None when there is none or the level has no entry. */
    method FindNodeByLevel(tag: string, level: int) returns (r: Option<nat>)
      requires Valid()
      ensures r == Lookup(nodes, AtLevel(byLevel, level), tag)
    {
      r := ScanByLabel(nodes, AtLevel(byLevel, level), tag);
    }

    /** `FindNode`: the first node carrying the label in pre-order from the root. */
    method FindNode(tag: string) returns (r: Option<nat>)
      requires Valid()
      ensures r == Lookup(nodes, Preorder(nodes, 0), tag)
    {
      r := SearchPreorder(nodes, 0, tag);
    }

    /** `DFS`: the leaf-to-`n` paths of the subtree at `n`. */
    method DFS(n: nat) returns (r: seq<seq<nat>>)
      requires Valid() && n < |nodes|
      ensures r == Paths(nodes, n)
    {
      r := CollectPaths(nodes, n);
    }

    /** `Edges`: for each DFS path from the root, its edges from the root end to
        the leaf, between labels. */
    method Edges() returns (edges: seq<seq<Edge>>)
      requires Valid()
      ensures edges == TreeEdges(nodes)
    {
      var paths := DFS(0);
      DfsPaths(nodes, 0);
      edges := [];
      for k := 0 to |paths|
        invariant |edges| == k
        invariant forall m :: 0 <= m < k ==> edges[m] == PathEdges(nodes, paths[m])
      {
        var v := paths[k];
        assert LeafPath(nodes, v, 0);
        var path: seq<Edge> := [];
        var i := |v| - 1;
        while i > 0
          invariant 0 <= i <= |v| - 1
          invariant |path| == |v| - 1 - i
          invariant forall e :: 0 <= e < |path| ==> path[e] == PathEdges(nodes, v)[e]
        {
          path := path + [Edge(nodes[v[i]].tag, nodes[v[i - 1]].tag)];
          i := i - 1;
        }
        edges := edges + [path];
      }
    }
  }

  /** The wiring of `TestFindNodeByLevel`: `root` with children `child1`,
      `child2` and `child3`, and `child4` under `child3`. The test attaches
      `child4` to `child3` before `child3` to the root; here `child3` is
      attached first, since `AddChild` only hangs childless nodes (the
      resulting links are the same). */
  method ScenarioWiring() returns (t: Tree)
    ensures fresh(t) && t.Valid() && |t.nodes| == 5
    ensures t.nodes[0].tag == "root" && t.nodes[1].tag == "child1" && t.nodes[2].tag == "child2"
    ensures t.nodes[3].tag == "child3" && t.nodes[4].tag == "child4"
    ensures t.nodes[1].parent == t.nodes[2].parent == t.nodes[3].parent == Some(0) && t.nodes[4].parent == Some(3)
    ensures t.nodes[0].level == 1 && t.byLevel == map[1 := [0]] && t.leafsLevel == 1
  {
    t := new Tree("root", "root");
    var i1 := t.AddChild(0, NewNode("child1", "child1"));
    var i2 := t.AddChild(0, NewNode("child2", "child2"));
    var i3 := t.AddChild(0, NewNode("child3", "child3"));
    var i4 := t.AddChild(i3, NewNode("child4", "child4"));
  }

  /** The test's `AddNode` calls: the three children of the root land on
      level 2 in order, `child4` on level 3. */
  method ScenarioLevels() returns (t: Tree)
    ensures fresh(t) && t.Valid()
    ensures AtLevel(t.byLevel, 1) == [0] && AtLevel(t.byLevel, 2) == [1, 2, 3] && AtLevel(t.byLevel, 3) == [4]
    ensures |t.nodes| == 5 && t.nodes[0].tag == "root" && t.nodes[1].tag == "child1" && t.nodes[2].tag == "child2"
    ensures t.nodes[3].tag == "child3" && t.nodes[4].tag == "child4"
    ensures t.leafsLevel == 3
  {
    t := ScenarioWiring();
    t.AddNode(1);
    t.AddNode(2);
    t.AddNode(3);
    t.AddNode(4);
  }

  /** `TestFindNodeByLevel`: each label is found at its level. */
  method FindNodeByLevelScenario() returns (root: Option<nat>, c1: Option<nat>, c2: Option<nat>, c3: Option<nat>, c4: Option<nat>)
    ensures root == Some(0) && c1 == Some(1) && c2 == Some(2) && c3 == Some(3) && c4 == Some(4)
  {
    var t := ScenarioLevels();
    assert FirstMatch(t.nodes, [0], "root") == 0;
    assert FirstMatch(t.nodes, [1, 2, 3], "child1") == 0;
    assert FirstMatch(t.nodes, [1, 2, 3], "child2") == 1 by {
      assert FirstMatch(t.nodes, [2, 3], "child2") == 0 && [1, 2, 3][1..] == [2, 3];
    }
    assert FirstMatch(t.nodes, [1, 2, 3], "child3") == 2 by {
      assert FirstMatch(t.nodes, [3], "child3") == 0 && [2, 3][1..] == [3] && [1, 2, 3][1..] == [2, 3];
    }
    assert FirstMatch(t.nodes, [4], "child4") == 0;
    root := t.FindNodeByLevel("root", 1);
    c1 := t.FindNodeByLevel("child1", 2);
    c2 := t.FindNodeByLevel("child2", 2);
    c3 := t.FindNodeByLevel("child3", 2);
    c4 := t.FindNodeByLevel("child4", 3);
  }
}
