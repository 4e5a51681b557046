/** The node records shared by both tree implementations (pkg/tree/tree.go and
    graph/tree.go). Nodes live in one sequence, the arena; a node is named by its
    index, so the source's `*Node` pointers become indices: `Parent` an optional
    index (the non-owning back-reference), `Children` a sequence of indices in
    insertion order. */
module NodeArena {
  import opened Wrappers

  /** A capture instant. `Unset` is Go's zero `time.Time` (year 1), which is what
      `IsZero` tests for; `At(ns)` is an instant in Unix nanoseconds. */
  datatype Stamp = Unset | At(nanos: int)

  /** `time.Time.Before`: the zero time precedes every Unix-nanosecond instant. */
  predicate Before(a: Stamp, b: Stamp)
  {
    match (a, b)
    case (Unset, At(_)) => true
    case (At(x), At(y)) => x < y
    case (_, Unset) => false
  }

  /** A tree node. `tag` is the source's `Label` (the topology node a tree node
      stands for; `label` is a reserved word here), `name` its possibly suffixed
      unique name, `level` its depth (the root is 1). */
  datatype Node = Node(
    name: string,
    tag: string,
    parent: Option<nat>,
    children: seq<nat>,
    level: int,
    ingress: Stamp,
    egress: Stamp)

  /** Parent and child links agree, and every child was created after its parent,
      so the links form a forest (no cycles, no sharing). */
  ghost predicate Wf(nodes: seq<Node>)
  {
    && (forall i, k :: 0 <= i < |nodes| && 0 <= k < |nodes[i].children| ==>
          i < nodes[i].children[k] < |nodes| && nodes[nodes[i].children[k]].parent == Some(i))
    && (forall j {:trigger nodes[j].parent} :: 0 <= j < |nodes| && nodes[j].parent.Some? ==>
          nodes[j].parent.value < j && j in nodes[nodes[j].parent.value].children)
  }

  ghost predicate InRange(nodes: seq<Node>, ids: seq<nat>)
  {
    forall k :: 0 <= k < |ids| ==> ids[k] < |nodes|
  }

  /** Position of the first node in `ids` whose tag is `tag` (|ids| if none). */
  ghost function FirstMatch(nodes: seq<Node>, ids: seq<nat>, tag: string): (k: nat)
    requires InRange(nodes, ids)
    ensures k <= |ids|
    ensures forall j :: 0 <= j < k ==> nodes[ids[j]].tag != tag
    ensures k < |ids| ==> nodes[ids[k]].tag == tag
  {
    if ids == [] then 0
    else if nodes[ids[0]].tag == tag then 0
    else 1 + FirstMatch(nodes, ids[1..], tag)
  }

  /** The earliest node of `ids` labelled `tag`, or None (Go's nil). */
  ghost function Lookup(nodes: seq<Node>, ids: seq<nat>, tag: string): (r: Option<nat>)
    requires InRange(nodes, ids)
    ensures r.None? <==> forall k :: 0 <= k < |ids| ==> nodes[ids[k]].tag != tag
    ensures r.Some? ==> r.value in ids && r.value < |nodes| && nodes[r.value].tag == tag
  {
    var k := FirstMatch(nodes, ids, tag);
    if k < |ids| then Some(ids[k]) else None
  }

  lemma {:induction false} FirstMatchAppend(nodes: seq<Node>, a: seq<nat>, b: seq<nat>, tag: string)
    requires InRange(nodes, a) && InRange(nodes, b)
    ensures InRange(nodes, a + b)
    ensures FirstMatch(nodes, a + b, tag) ==
              if FirstMatch(nodes, a, tag) < |a| then FirstMatch(nodes, a, tag) else |a| + FirstMatch(nodes, b, tag)
  {
    if a == [] {
      assert a + b == b;
    } else {
      assert (a + b)[0] == a[0] && (a + b)[1..] == a[1..] + b;
      FirstMatchAppend(nodes, a[1..], b, tag);
      if nodes[a[0]].tag != tag {
        assert FirstMatch(nodes, a + b, tag) == 1 + FirstMatch(nodes, a[1..] + b, tag);
        assert FirstMatch(nodes, a, tag) == 1 + FirstMatch(nodes, a[1..], tag);
      }
    }
  }

  /** Searching a concatenation searches the front part first. */
  lemma LookupAppend(nodes: seq<Node>, a: seq<nat>, b: seq<nat>, tag: string)
    requires InRange(nodes, a) && InRange(nodes, b)
    ensures InRange(nodes, a + b)
    ensures Lookup(nodes, a + b, tag) ==
              if Lookup(nodes, a, tag).Some? then Lookup(nodes, a, tag) else Lookup(nodes, b, tag)
  {
    FirstMatchAppend(nodes, a, b, tag);
  }

  /** Appending never shadows an earlier match: a tag that was found keeps
      resolving to the same, earliest-inserted node. */
  lemma NoShadowing(nodes: seq<Node>, ids: seq<nat>, x: nat, tag: string)
    requires InRange(nodes, ids) && x < |nodes|
    requires Lookup(nodes, ids, tag).Some?
    ensures InRange(nodes, ids + [x])
    ensures Lookup(nodes, ids + [x], tag) == Lookup(nodes, ids, tag)
  {
    LookupAppend(nodes, ids, [x], tag);
  }

  /** Pre-order of the subtree at `n`: the node, then each child's subtree in order. */
  ghost function Preorder(nodes: seq<Node>, n: nat): (s: seq<nat>)
    requires Wf(nodes) && n < |nodes|
    ensures |s| >= 1 && s[0] == n && InRange(nodes, s)
    decreases |nodes| - n, 1
  {
    [n] + PreorderKids(nodes, n, 0)
  }

  /** Pre-order of the subtrees of children `i..` of `p`, concatenated. */
  ghost function PreorderKids(nodes: seq<Node>, p: nat, i: nat): (s: seq<nat>)
    requires Wf(nodes) && p < |nodes| && i <= |nodes[p].children|
    ensures InRange(nodes, s)
    decreases |nodes| - p, 0, |nodes[p].children| - i
  {
    if i == |nodes[p].children| then []
    else Preorder(nodes, nodes[p].children[i]) + PreorderKids(nodes, p, i + 1)
  }

  /** The subtree of child `k` of `p` lies within the subtrees of children `i..`. */
  lemma {:induction false} KidsCover(nodes: seq<Node>, p: nat, i: nat, k: nat)
    requires Wf(nodes) && p < |nodes| && i <= k < |nodes[p].children|
    ensures forall y :: y in Preorder(nodes, nodes[p].children[k]) ==> y in PreorderKids(nodes, p, i)
    decreases k - i
  {
    if i < k {
      KidsCover(nodes, p, i + 1, k);
    }
  }

  /** A node in the subtrees of children `i..` of `p` is in one of them. */
  lemma {:induction false} KidsSplit(nodes: seq<Node>, p: nat, i: nat, x: nat) returns (k: nat)
    requires Wf(nodes) && p < |nodes| && i <= |nodes[p].children| && x in PreorderKids(nodes, p, i)
    ensures i <= k < |nodes[p].children| && x in Preorder(nodes, nodes[p].children[k])
    decreases |nodes[p].children| - i
  {
    if x in Preorder(nodes, nodes[p].children[i]) {
      k := i;
    } else {
      k := KidsSplit(nodes, p, i + 1, x);
    }
  }

  /** A subtree contains the subtree of each of its nodes. */
  lemma {:induction false} PreorderClosed(nodes: seq<Node>, a: nat, x: nat)
    requires Wf(nodes) && a < |nodes| && x in Preorder(nodes, a)
    ensures x < |nodes| && forall y :: y in Preorder(nodes, x) ==> y in Preorder(nodes, a)
    decreases |nodes| - a
  {
    if x != a {
      var k := KidsSplit(nodes, a, 0, x);
      PreorderClosed(nodes, nodes[a].children[k], x);
      KidsCover(nodes, a, 0, k);
    }
  }

  /** When every node but the first has a parent, the pre-order walk from the
      first node visits every node. */
  lemma {:induction false} Reachable(nodes: seq<Node>, j: nat)
    requires Wf(nodes) && j < |nodes| && forall i :: 0 < i < |nodes| ==> nodes[i].parent.Some?
    ensures j in Preorder(nodes, 0)
    decreases j
  {
    if j > 0 {
      var p := nodes[j].parent.value;
      Reachable(nodes, p);
      var k :| 0 <= k < |nodes[p].children| && nodes[p].children[k] == j;
      KidsCover(nodes, p, 0, k);
      assert j in Preorder(nodes, j);
      assert Preorder(nodes, p) == [p] + PreorderKids(nodes, p, 0);
      PreorderClosed(nodes, 0, p);
    }
  }

  /** The loop of `FindNodeByLevel`: scan `ids` in order for the first tag match. */
  method ScanByLabel(nodes: seq<Node>, ids: seq<nat>, tag: string) returns (r: Option<nat>)
    requires InRange(nodes, ids)
    ensures r == Lookup(nodes, ids, tag)
  {
    for i := 0 to |ids|
      invariant forall j :: 0 <= j < i ==> nodes[ids[j]].tag != tag
    {
      if nodes[ids[i]].tag == tag {
        assert FirstMatch(nodes, ids, tag) == i;
        return Some(ids[i]);
      }
    }
    return None;
  }

  /** `findNode`: the node itself, then each child's subtree, first match wins. */
  method SearchPreorder(nodes: seq<Node>, n: nat, tag: string) returns (r: Option<nat>)
    requires Wf(nodes) && n < |nodes|
    ensures r == Lookup(nodes, Preorder(nodes, n), tag)
    decreases |nodes| - n
  {
    if nodes[n].tag == tag {
      return Some(n);
    }
    LookupAppend(nodes, [n], PreorderKids(nodes, n, 0), tag);
    var kids := nodes[n].children;
    for i := 0 to |kids|
      invariant Lookup(nodes, PreorderKids(nodes, n, 0), tag) == Lookup(nodes, PreorderKids(nodes, n, i), tag)
    {
      var found := SearchPreorder(nodes, kids[i], tag);
      LookupAppend(nodes, Preorder(nodes, kids[i]), PreorderKids(nodes, n, i + 1), tag);
      if found.Some? {
        return found;
      }
    }
    return None;
  }
}
