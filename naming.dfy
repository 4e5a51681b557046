/** Node naming in `Generate` (pkg/tree/generator.go): a collision the
    label-based check lets through, and a naming rule that never reuses a
    name. */
module Naming {
  import opened Wrappers
  import opened Text
  import opened NodeArena
  import opened PkgTree
  import opened Packets
  import opened Generator

  // ---------------------------------------------------------------------------
  // A replay that names two nodes alike

  /** The name the counter gives the second node labelled `h1`. */
  const H1Zero: string := "h1" + "_" + "0"

  /** Two links: host `h1` on interface `p2`, host `h1_0` on `p2-b`. */
  const ClashLinks: seq<string> := ["h1" + ":" + "p2", H1Zero + ":" + "p2-b"]

  /** Records on `p2` at times 1 and 2, then on `p2-b` at time 3. */
  const ClashRecords: seq<Packet> := [Seen("p2", 1), Seen("p2", 2), Seen("p2-b", 3)]

  /** A record seen on `device` at time `time`. */
  function Seen(device: string, time: int): Packet
  {
    Packet(device, 0.0, "", "", "", "", "", time, time)
  }

  /** The piece before the first `c` of `x + [c] + y` is `x` when `x` has no `c`. */
  lemma {:induction false} UpToSplit(x: string, c: char, y: string)
    requires c !in x
    ensures UpTo(x + [c] + y, c) == x
  {
    if x != [] {
      assert (x + [c] + y)[1..] == x[1..] + [c] + y;
      UpToSplit(x[1..], c, y);
    }
  }

  /** The halves of `"node:iface"` when neither half holds a colon. */
  lemma LinkHalves(node: string, iface: string)
    requires ':' !in node && ':' !in iface
    ensures var l := node + ":" + iface;
            ':' in l && LinkNode(l) == node && LinkIface(l) == iface
  {
    var l := node + ":" + iface;
    assert l == node + [':'] + iface && l[|node|] == ':';
    UpToSplit(node, ':', iface);
    assert l[|node| + 1..] == iface;
  }

  lemma OwnIds()
    ensures OwnId("p2") == "p2" && OwnId("p2-b") == "p2"
  {
    assert "p2-b" == "p2" + ['-'] + "b";
    UpToSplit("p2", '-', "b");
  }

  /** The links are well formed, and their halves are the host and the interface. */
  lemma ClashHalves()
    ensures LinksWellFormed(ClashLinks)
    ensures LinkNode(ClashLinks[0]) == "h1" && LinkIface(ClashLinks[0]) == "p2"
    ensures LinkNode(ClashLinks[1]) == H1Zero && LinkIface(ClashLinks[1]) == "p2-b"
  {
    LinkHalves("h1", "p2");
    LinkHalves(H1Zero, "p2-b");
  }

  /** Interface `p2` leads to `h1`, interface `p2-b` to `h1_0`. */
  lemma ClashTopology()
    ensures LinksWellFormed(ClashLinks)
    ensures ConnectedNode(ClashLinks, "p2") == "h1" && ConnectedNode(ClashLinks, "p2-b") == H1Zero
  {
    ClashHalves();
    assert |"p2"| != |"p2-b"|;
    FirstLinkStep(ClashLinks, "p2", 0);
    FirstLinkStep(ClashLinks, "p2-b", 0);
    FirstLinkStep(ClashLinks, "p2-b", 1);
  }

  /** The tree after the first record: `p2` under the root, entered at time 1. */
  const First: State :=
    State([Node("h1", "h1", None, [1], 1, Unset, Unset), Node("p2", "p2", Some(0), [], 2, At(1), Unset)],
          map[1 := [0], 2 := [1]], 2)

  /** `Placed` applies the outcome `Decide` finds for the record's own id and
      connected node. */
  lemma PlacedBy(links: seq<string>, rec: Packet, s: State, prime: nat, own: string, conn: string, o: Outcome)
    requires Layered(s.nodes, s.byLevel, s.leafs) && LinksWellFormed(links)
    requires OwnId(rec.device) == own && ConnectedNode(links, rec.device) == conn
    requires Decide(s, own, conn, rec.capturedAtNano, prime, s.leafs) == o
    ensures Anchored(s.nodes, o)
    ensures Placed(links, rec, s, prime) == (Enact(s, own, conn, rec.capturedAtNano, o), PrimeAfter(s.nodes, own, conn, prime, o))
  {
  }

  /** The first record attaches `p2` under the root by its bare label. */
  lemma PlaceFirst()
    requires LinksWellFormed(ClashLinks)
    ensures Placed(ClashLinks, Seen("p2", 1), Start("h1"), 0) == (First, 0)
  {
    ClashTopology();
    OwnIds();
    StartAttach("h1", "p2", 1);
    PlacedBy(ClashLinks, Seen("p2", 1), Start("h1"), 0, "p2", "h1", Attached(0, 1, "p2"));
    FirstEnact();
  }

  lemma FirstEnact()
    ensures Enact(Start("h1"), "p2", "h1", 1, Attached(0, 1, "p2")) == First
  {
    StartAttach("h1", "p2", 1);
    assert map[1 := [0]][2 := AtLevel(map[1 := [0]], 2) + [1]] == First.byLevel;
  }

  lemma ClashFirst()
    ensures LinksWellFormed(ClashLinks)
    ensures Replay(ClashLinks, ClashRecords[..1], "h1") == (First, 0)
  {
    ClashTopology();
    ReplayStep(ClashLinks, ClashRecords, "h1", 0);
    assert ClashRecords[..0] == [];
    PlaceFirst();
  }

  /** The tree after the second record: a node labelled `h1`, named `h1_0`
      since the root already carries that label, hung under `p2`. */
  const Second: State :=
    State([Node("h1", "h1", None, [1], 1, Unset, Unset), Node("p2", "p2", Some(0), [2], 2, At(1), Unset),
           Node(H1Zero, "h1", Some(1), [], 3, Unset, At(2))],
          map[1 := [0], 2 := [1], 3 := [2]], 3)

  lemma FirstLayered()
    ensures LinksWellFormed(ClashLinks) && Layered(First.nodes, First.byLevel, First.leafs)
  {
    ClashTopology();
    PlaceFirst();
    assert Placed(ClashLinks, Seen("p2", 1), Start("h1"), 0).0 == First;
  }

  /** At level 2 of the first tree, `p2` has entered but its parent has not
      left, so rule B fires; `h1` is taken, so the new node is `h1_0`. */
  lemma SecondDecide()
    ensures Layered(First.nodes, First.byLevel, First.leafs)
    ensures Decide(First, "p2", "h1", 2, 0, 2) == Spawned(1, 2, H1Zero)
    ensures PrimeAfter(First.nodes, "p2", "h1", 0, Spawned(1, 2, H1Zero)) == 1
  {
    FirstLayered();
    var s := First;
    assert AtLevel(s.byLevel, 2) == [1] && s.nodes[1].tag == "p2";
    assert Lookup(s.nodes, [1], "p2") == Some(1);
    assert RuleAt(s.nodes, s.byLevel, "p2", "h1", 2, 2) == Spawn(1);
    PresentMeans(s.nodes, s.byLevel, s.leafs, "h1");
    assert s.nodes[0].tag == "h1";
    assert NatToString(0) == "0";
    DecideHere(s, "p2", "h1", 2, 0, 2, Spawned(1, 2, H1Zero));
  }

  lemma SecondEnact()
    ensures Enact(First, "p2", "h1", 2, Spawned(1, 2, H1Zero)) == Second
  {
    var child := Node(H1Zero, "h1", Some(1), [], 3, Unset, At(2));
    assert Enact(First, "p2", "h1", 2, Spawned(1, 2, H1Zero)) == Hanged(First, 1, child);
    assert First.nodes[1].children + [2] == [2];
    var g := Grow(First.nodes, 1, child);
    assert |g| == 3 && g[0] == Second.nodes[0] && g[1] == Second.nodes[1] && g[2] == Second.nodes[2];
    assert g == Second.nodes;
    assert First.byLevel[3 := AtLevel(First.byLevel, 3) + [2]] == Second.byLevel;
  }

  lemma PlaceSecond()
    ensures LinksWellFormed(ClashLinks) && Layered(First.nodes, First.byLevel, First.leafs)
    ensures Placed(ClashLinks, Seen("p2", 2), First, 0) == (Second, 1)
  {
    ClashTopology();
    OwnIds();
    SecondDecide();
    PlacedBy(ClashLinks, Seen("p2", 2), First, 0, "p2", "h1", Spawned(1, 2, H1Zero));
    SecondEnact();
  }

  lemma ClashSecond()
    ensures LinksWellFormed(ClashLinks)
    ensures Replay(ClashLinks, ClashRecords[..2], "h1") == (Second, 1)
  {
    ClashFirst();
    PlaceSecond();
    assert ClashRecords[1] == Seen("p2", 2);
    ReplayFrom(ClashLinks, ClashRecords, "h1", 1, First, 0);
  }

  /** One more record placed on a replayed tree that is already known. */
  lemma ReplayFrom(links: seq<string>, recs: seq<Packet>, root: string, i: nat, s: State, prime: nat)
    requires LinksWellFormed(links) && i < |recs| && Replay(links, recs[..i], root) == (s, prime)
    ensures Layered(s.nodes, s.byLevel, s.leafs)
    ensures Replay(links, recs[..i + 1], root) == Placed(links, recs[i], s, prime)
  {
    ReplayLayered(links, recs[..i], root);
    ReplayStep(links, recs, root, i);
  }

  lemma SecondLayered()
    ensures LinksWellFormed(ClashLinks) && Layered(Second.nodes, Second.byLevel, Second.leafs)
  {
    PlaceSecond();
    FirstLayered();
    assert Placed(ClashLinks, Seen("p2", 2), First, 0).0 == Second;
  }

  /** The third record, on `p2-b`, is connected to `h1_0`. Level 3 holds only
      the `h1` node, so no rule applies there; at level 2, `p2`'s parent is not
      named `h1_0`, so rule B fires again; no node is LABELLED `h1_0`, so the
      new node gets the bare name `h1_0`. */
  lemma ThirdDecide()
    ensures Layered(Second.nodes, Second.byLevel, Second.leafs)
    ensures Decide(Second, "p2", H1Zero, 3, 1, 3) == Spawned(1, 2, H1Zero)
    ensures PrimeAfter(Second.nodes, "p2", H1Zero, 1, Spawned(1, 2, H1Zero)) == 1
  {
    SecondLayered();
    ThirdRules();
    DecideSkips(Second, "p2", H1Zero, 3, 1, 2, 3);
    ThirdName();
    DecideHere(Second, "p2", H1Zero, 3, 1, 2, Spawned(1, 2, H1Zero));
  }

  /** No rule at level 3; rule B on `p2` at level 2. */
  lemma ThirdRules()
    ensures Wf(Second.nodes) && IndexInRange(Second.nodes, Second.byLevel)
    ensures RuleAt(Second.nodes, Second.byLevel, "p2", H1Zero, 3, 3) == NoRule
    ensures RuleAt(Second.nodes, Second.byLevel, "p2", H1Zero, 3, 2) == Spawn(1)
  {
    SecondLayered();
    var s := Second;
    assert |"h1"| != |H1Zero| && "p2" != "h1";
    assert AtLevel(s.byLevel, 3) == [2] && s.nodes[2].tag == "h1";
    assert Lookup(s.nodes, [2], "p2") == None && Lookup(s.nodes, [2], H1Zero) == None;
    assert AtLevel(s.byLevel, 2) == [1] && s.nodes[1].tag == "p2";
    assert Lookup(s.nodes, [1], "p2") == Some(1);
  }

  /** No node of the second tree is labelled `h1_0`, though one is named so. */
  lemma ThirdName()
    ensures Layered(Second.nodes, Second.byLevel, Second.leafs)
    ensures !Present(Second.nodes, H1Zero) && FreshName(Second.nodes, H1Zero, 1) == H1Zero
  {
    SecondLayered();
    assert |"h1"| != |H1Zero| && |"p2"| != |H1Zero|;
    PresentMeans(Second.nodes, Second.byLevel, Second.leafs, H1Zero);
  }

  lemma ThirdEnact()
    ensures var t := Enact(Second, "p2", H1Zero, 3, Spawned(1, 2, H1Zero));
            |t.nodes| == 4 && t.nodes[2] == Second.nodes[2] && t.nodes[3].name == H1Zero && t.nodes[3].tag == H1Zero
  {
    var child := Node(H1Zero, H1Zero, Some(1), [], 3, Unset, At(3));
    assert Enact(Second, "p2", H1Zero, 3, Spawned(1, 2, H1Zero)) == Hanged(Second, 1, child);
  }

  lemma PlaceThird()
    ensures LinksWellFormed(ClashLinks) && Layered(Second.nodes, Second.byLevel, Second.leafs)
    ensures var (t, prime) := Placed(ClashLinks, Seen("p2-b", 3), Second, 1);
            |t.nodes| == 4 && t.nodes[2] == Second.nodes[2] && t.nodes[3].name == H1Zero && t.nodes[3].tag == H1Zero
  {
    ClashTopology();
    OwnIds();
    ThirdDecide();
    PlacedBy(ClashLinks, Seen("p2-b", 3), Second, 1, "p2", H1Zero, Spawned(1, 2, H1Zero));
    ThirdEnact();
  }

  /** Replaying the three records from root `h1`, the host on the first
      record's interface, leaves two nodes named `h1_0`: node 2, labelled
      `h1`, and node 3, labelled `h1_0`. */
  lemma NameClash()
    ensures LinksWellFormed(ClashLinks) && ConnectedNode(ClashLinks, ClashRecords[0].device) == "h1"
    ensures var s := Replay(ClashLinks, ClashRecords, "h1").0;
            |s.nodes| == 4 && s.nodes[2].name == s.nodes[3].name && s.nodes[2].tag != s.nodes[3].tag
  {
    ClashTopology();
    assert ClashRecords[0].device == "p2";
    ClashThird();
    PlaceThird();
    assert |"h1"| != |H1Zero|;
  }

  lemma ClashThird()
    ensures LinksWellFormed(ClashLinks) && Layered(Second.nodes, Second.byLevel, Second.leafs)
    ensures Replay(ClashLinks, ClashRecords, "h1") == Placed(ClashLinks, Seen("p2-b", 3), Second, 1)
  {
    SecondLayered();
    ClashSecond();
    var recs := ClashRecords;
    assert |recs| == 3 && recs[..3] == recs && recs[2] == Seen("p2-b", 3);
    assert Replay(ClashLinks, recs, "h1") == Placed(ClashLinks, recs[2], Second, 1);
  }

  // ---------------------------------------------------------------------------
  // A naming rule that checks names, not labels

  /** Whether some node already carries `x` as its name. */
  predicate NameTaken(nodes: seq<Node>, x: string)
  {
    exists j :: 0 <= j < |nodes| && nodes[j].name == x
  }

  /** The names the nodes carry. */
  ghost function NameSet(nodes: seq<Node>): set<string>
  {
    set j | 0 <= j < |nodes| :: nodes[j].name
  }

  /** No two nodes carry the same name. */
  ghost predicate NamesUnique(nodes: seq<Node>)
  {
    forall i, j :: 0 <= i < j < |nodes| ==> nodes[i].name != nodes[j].name
  }

  /** A set of names can hold no more names than the nodes carry. */
  lemma {:induction false} FewerNames(seen: set<string>, nodes: seq<Node>)
    requires seen <= NameSet(nodes)
    ensures |seen| <= |nodes|
  {
    if nodes != [] {
      var last := nodes[|nodes| - 1];
      var front := nodes[..|nodes| - 1];
      assert seen - {last.name} <= NameSet(front) by {
        forall x | x in seen - {last.name}
          ensures x in NameSet(front)
        {
          var j :| 0 <= j < |nodes| && nodes[j].name == x;
          assert j < |nodes| - 1 && front[j] == nodes[j];
        }
      }
      FewerNames(seen - {last.name}, front);
    }
  }

  /** Every counter value in `[lo, hi)` gives a name some node already carries. */
  ghost predicate AllTaken(nodes: seq<Node>, tag: string, lo: nat, hi: int)
  {
    forall k :: lo <= k < hi ==> NameTaken(nodes, tag + "_" + NatToString(k))
  }

  /** The names `seen` are the suffixed names for the counter values in `[lo, hi)`. */
  ghost predicate SeenSuffixed(seen: set<string>, tag: string, lo: nat, hi: int)
  {
    forall x :: x in seen ==> exists k :: lo <= k < hi && x == tag + "_" + NatToString(k)
  }

  /** The state of the search for a free name: the counter values in
      `[lo, next - 1)` were tried and their names are taken, `seen` holds
      those names, and `name` is the candidate for `next - 1`. */
  ghost predicate Trying(nodes: seq<Node>, tag: string, lo: nat, next: nat, name: string, seen: set<string>)
  {
    lo < next && name == tag + "_" + NatToString(next - 1)
    && AllTaken(nodes, tag, lo, next - 1)
    && seen <= NameSet(nodes) && |seen| == next - 1 - lo && |seen| <= |nodes|
    && SeenSuffixed(seen, tag, lo, next - 1)
  }

  /** The name the corrected rule gives a new node labelled `tag`: the label
      itself when no node is named so, otherwise the label with the first
      counter value, from `prime` on, that gives a name no node carries;
      `prime'` is the counter after the last value tried. */
  method FreeName(nodes: seq<Node>, tag: string, prime: nat) returns (name: string, prime': nat)
    ensures !NameTaken(nodes, name)
    ensures !NameTaken(nodes, tag) ==> name == tag && prime' == prime
    ensures NameTaken(nodes, tag) ==> prime < prime' && name == tag + "_" + NatToString(prime' - 1)
    ensures AllTaken(nodes, tag, prime, prime' - 1)
  {
    if !NameTaken(nodes, tag) {
      return tag, prime;
    }
    name, prime' := tag + "_" + NatToString(prime), prime + 1;
    ghost var seen: set<string> := {};
    while NameTaken(nodes, name)
      invariant Trying(nodes, tag, prime, prime', name, seen)
      decreases |nodes| - |seen|
    {
      seen := NextTried(nodes, tag, prime, prime', name, seen);
      name, prime' := tag + "_" + NatToString(prime'), prime' + 1;
    }
  }

  /** One more counter value tried: its name is taken, so it joins the
      taken names without having been seen before. */
  lemma NextTried(nodes: seq<Node>, tag: string, lo: nat, next: nat, name: string, seen: set<string>)
    returns (seen': set<string>)
    requires Trying(nodes, tag, lo, next, name, seen) && NameTaken(nodes, name)
    ensures seen' == seen + {name} && |seen'| == |seen| + 1
    ensures Trying(nodes, tag, lo, next + 1, tag + "_" + NatToString(next), seen')
  {
    var hi := next - 1;
    if name in seen {
      var k :| lo <= k < hi && name == tag + "_" + NatToString(k);
      SuffixedNamesDiffer(tag, tag, hi, k);
      assert false;
    }
    var j :| 0 <= j < |nodes| && nodes[j].name == name;
    assert name in NameSet(nodes);
    seen' := seen + {name};
    forall y | y in seen'
      ensures exists k :: lo <= k < next && y == tag + "_" + NatToString(k)
    {
      if y in seen {
        var k :| lo <= k < hi && y == tag + "_" + NatToString(k);
        assert lo <= k < next;
      } else {
        assert lo <= hi < next && y == tag + "_" + NatToString(hi);
      }
    }
    FewerNames(seen', nodes);
  }

  /** Hanging a node under a name no node carries keeps every name unique,
      which is what the DOT drawing needs to keep one graph node per tree
      node. */
  lemma UniqueGrow(nodes: seq<Node>, p: nat, child: Node)
    requires NamesUnique(nodes) && p < |nodes| && !NameTaken(nodes, child.name)
    ensures NamesUnique(Grow(nodes, p, child))
  {
    var g := Grow(nodes, p, child);
    forall i, j | 0 <= i < j < |g|
      ensures g[i].name != g[j].name
    {
      assert g[i].name == nodes[i].name;
      if j < |nodes| {
        assert g[j].name == nodes[j].name;
      }
    }
  }
}
