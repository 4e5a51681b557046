/** Flow-tree reconstruction and fragment merging (pkg/tree/generator.go). */
module Generator {
  import opened Wrappers
  import opened Text
  import opened Sorting
  import opened Packets
  import opened NodeArena
  import opened PkgTree

  datatype Topology = Topology(hosts: seq<string>, switches: seq<string>, links: seq<string>, dot: string)

  /** A stored property; only its solver text reaches the checker. */
  datatype Property = Property(title: string, description: string, text: string)

  datatype Config = Config(topo: Topology, props: seq<Property>)

  /** The reconstructed path of one flow. `protocol` is the source's `Type`. */
  datatype FlowTree = FlowTree(
    id: string,
    protocol: string,
    srcIp: string,
    dstIp: string,
    srcPort: string,
    dstPort: string,
    nodes: string,
    nodesImg: string,
    capturedAt: int,
    level: int,
    edges: seq<seq<Edge>>,
    isSat: bool)

  /** The external solver run: (edge buffer, topology, property text) to the
      solver's trimmed output. */
  type Solver = (map<int, seq<Edge>>, Topology, string) -> string

  /** The sentinel `getConnectedNode` returns for an unknown interface. */
  const NotFound := "N/A"

  // ---------------------------------------------------------------------------
  // Topology lookup

  ghost predicate LinksWellFormed(links: seq<string>)
  {
    forall i :: 0 <= i < |links| ==> ':' in links[i]
  }

  /** The node half of a `"node:iface"` link. */
  function LinkNode(l: string): string
  {
    UpTo(l, ':')
  }

  /** The interface half of a `"node:iface"` link. */
  function LinkIface(l: string): string
    requires ':' in l
  {
    SecondPiece(l, ':')
  }

  /** The position of the first link at or after `i` whose interface is `d`
      (|links| if none). */
  ghost function FirstLink(links: seq<string>, d: string, i: nat): (k: nat)
    requires LinksWellFormed(links) && i <= |links|
    ensures i <= k <= |links|
    ensures k < |links| ==> LinkIface(links[k]) == d
    decreases |links| - i
  {
    if i == |links| then i
    else if LinkIface(links[i]) == d then i
    else FirstLink(links, d, i + 1)
  }

  /** The topology node on the other end of interface `d`, or the sentinel. */
  ghost function ConnectedNode(links: seq<string>, d: string): string
    requires LinksWellFormed(links)
  {
    var k := FirstLink(links, d, 0);
    if k < |links| then LinkNode(links[k]) else NotFound
  }

  /** `getConnectedNode`: the node half of the first link whose interface half
      equals `d` exactly, or "N/A" when no link has that interface. */
  method GetConnectedNode(links: seq<string>, d: string) returns (h: string)
    requires LinksWellFormed(links)
    ensures h == ConnectedNode(links, d)
  {
    for i := 0 to |links|
      invariant FirstLink(links, d, 0) == FirstLink(links, d, i)
    {
      var host := UpTo(links[i], ':');
      var iface := SecondPiece(links[i], ':');
      if d == iface {
        FirstLinkStep(links, d, i);
        return host;
      }
      FirstLinkStep(links, d, i);
    }
    return NotFound;
  }

  /** The scan from `from` passes only links whose interface is not `d`. */
  lemma {:induction false} FirstLinkSkips(links: seq<string>, d: string, from: nat)
    requires LinksWellFormed(links) && from <= |links|
    ensures forall j :: from <= j < FirstLink(links, d, from) ==> LinkIface(links[j]) != d
    decreases |links| - from
  {
    if from < |links| {
      FirstLinkStep(links, d, from);
      if LinkIface(links[from]) != d {
        FirstLinkSkips(links, d, from + 1);
      }
    }
  }

  /** `getConnectedNode` answers with the node half of the first link whose
      interface half is exactly `d`, and with "N/A" when no link has it. */
  lemma ConnectedNodeMeans(links: seq<string>, d: string)
    requires LinksWellFormed(links)
    ensures (exists i :: 0 <= i < |links| && LinkIface(links[i]) == d) ==>
              exists i :: 0 <= i < |links| && LinkIface(links[i]) == d && ConnectedNode(links, d) == LinkNode(links[i])
                          && forall j :: 0 <= j < i ==> LinkIface(links[j]) != d
    ensures (forall i :: 0 <= i < |links| ==> LinkIface(links[i]) != d) ==> ConnectedNode(links, d) == NotFound
  {
    var k := FirstLink(links, d, 0);
    FirstLinkSkips(links, d, 0);
    if k < |links| {
      assert LinkIface(links[k]) == d && ConnectedNode(links, d) == LinkNode(links[k]);
    }
  }

  /** One step of the scan: it stops at a link whose interface is `d` and
      moves past any other. */
  lemma FirstLinkStep(links: seq<string>, d: string, i: nat)
    requires LinksWellFormed(links) && i < |links|
    ensures LinkIface(links[i]) == d ==> FirstLink(links, d, i) == i
    ensures LinkIface(links[i]) != d ==> FirstLink(links, d, i) == FirstLink(links, d, i + 1)
  {
  }

  /** The device's own short id: `strings.Split(device, "-")[0]`. */
  function OwnId(device: string): string
  {
    UpTo(device, '-')
  }

  // ---------------------------------------------------------------------------
  // Placement of one record

  /** Rule A's guard: `n` has a parent whose NAME is the connected node, `n`'s
      ingress is unset, and the parent's egress precedes the record. */
  ghost predicate ConfirmFits(nodes: seq<Node>, n: nat, connected: string, time: int)
    requires Wf(nodes) && n < |nodes|
  {
    && nodes[n].parent.Some?
    && nodes[nodes[n].parent.value].name == connected
    && nodes[n].ingress.Unset?
    && Before(nodes[nodes[n].parent.value].egress, At(time))
  }

  /** Rule B's guard: `n` has a parent and a set ingress that precedes the record. */
  ghost predicate SpawnFits(nodes: seq<Node>, n: nat, time: int)
    requires n < |nodes|
  {
    nodes[n].parent.Some? && nodes[n].ingress.At? && Before(nodes[n].ingress, At(time))
  }

  /** Which rule applies at one level of the backtracking search, and the
      node it acts on. */
  datatype Rule = Confirm(n: nat) | Spawn(n: nat) | Attach(n: nat) | NoRule

  /** The rule at `level`: the first node of the level labelled with the
      device's own id decides between A, B and nothing; only when the level
      has no such node is rule C (the first node labelled with the connected
      node) tried. */
  ghost function RuleAt(nodes: seq<Node>, byLevel: map<int, seq<nat>>, own: string, connected: string,
                        time: int, level: int): (r: Rule)
    requires Wf(nodes) && IndexInRange(nodes, byLevel)
    ensures !r.NoRule? ==> r.n in AtLevel(byLevel, level) && r.n < |nodes|
  {
    var ids := AtLevel(byLevel, level);
    match Lookup(nodes, ids, own)
    case Some(n) =>
      if ConfirmFits(nodes, n, connected, time) then Confirm(n)
      else if SpawnFits(nodes, n, time) then Spawn(n)
      else NoRule
    case None =>
      match Lookup(nodes, ids, connected)
      case Some(m) => Attach(m)
      case None => NoRule
  }

  /** Whether some node reachable from the root already carries `tag`. */
  ghost predicate Present(nodes: seq<Node>, tag: string)
    requires Wf(nodes) && |nodes| >= 1
  {
    Lookup(nodes, Preorder(nodes, 0), tag).Some?
  }

  /** The name a new node labelled `tag` gets: the label itself the first time,
      the label with the counter as suffix once the label is present. */
  ghost function FreshName(nodes: seq<Node>, tag: string, prime: nat): string
    requires Wf(nodes) && |nodes| >= 1
  {
    if Present(nodes, tag) then tag + "_" + NatToString(prime) else tag
  }

  /** How one record was placed, and at which level. */
  datatype Outcome =
    | Confirmed(node: nat, level: int)
    | Spawned(parent: nat, level: int, name: string)
    | Attached(parent: nat, level: int, name: string)
    | Dropped

  /** The whole mutable state of a `Tree`: arena, level index, `LeafsLevel`. */
  datatype State = State(nodes: seq<Node>, byLevel: map<int, seq<nat>>, leafs: int)

  /** Names a new node and advances the counter when the label is taken
      (the `FindNode` lookup from the root that `Generate` does inline). */
  method UniqueName(nodes: seq<Node>, tag: string, prime: nat) returns (name: string, prime': nat)
    requires Wf(nodes) && |nodes| >= 1
    ensures name == FreshName(nodes, tag, prime)
    ensures prime' == if Present(nodes, tag) then prime + 1 else prime
    ensures name == tag || name == tag + "_" + NatToString(prime)
  {
    var d := SearchPreorder(nodes, 0, tag);
    if d.None? {
      name, prime' := tag, prime;
    } else {
      name, prime' := tag + "_" + NatToString(prime), prime + 1;
    }
  }

  /** The tree after `child` was hung under `p` and registered at its own
      level, which becomes the new `LeafsLevel` when it is deeper. */
  ghost function Hanged(s: State, p: nat, child: Node): State
    requires p < |s.nodes|
  {
    State(Grow(s.nodes, p, child), s.byLevel[child.level := AtLevel(s.byLevel, child.level) + [|s.nodes|]],
          if child.level > s.leafs then child.level else s.leafs)
  }

  /** Creates a node, stamps it, hangs it under `parent` and indexes it one
      level below the parent: the calls `Generate` makes for rules B and C. */
  method Hang(t: Tree, parent: nat, name: string, tag: string, ingress: Stamp, egress: Stamp)
    requires t.Valid() && parent < |t.nodes|
    modifies t
    ensures t.Valid()
    ensures var level := old(t.nodes)[parent].level;
            State(t.nodes, t.byLevel, t.leafsLevel)
            == Hanged(State(old(t.nodes), old(t.byLevel), old(t.leafsLevel)), parent,
                      Node(name, tag, Some(parent), [], level + 1, ingress, egress))
  {
    ghost var nodes0 := t.nodes;
    var id := t.AddChild(parent, NewNode(name, tag).(ingress := ingress, egress := egress));
    ghost var hung := t.nodes;
    t.AddNode(id);
    HangLevel(nodes0, hung, t.nodes, parent, Node(name, tag, Some(parent), [], nodes0[parent].level + 1, ingress, egress));
  }

  /** Rules B and C: a new node labelled `tag`, named by `UniqueName`, hung
      under `parent` (which sits at `level`) with the given stamps. */
  method HangNamed(t: Tree, parent: nat, level: int, tag: string, prime: nat, ingress: Stamp, egress: Stamp)
    returns (name: string, prime': nat)
    requires t.Valid() && parent < |t.nodes| && t.nodes[parent].level == level
    modifies t
    ensures t.Valid()
    ensures State(t.nodes, t.byLevel, t.leafsLevel)
            == Hanged(State(old(t.nodes), old(t.byLevel), old(t.leafsLevel)), parent,
                      Node(name, tag, Some(parent), [], level + 1, ingress, egress))
    ensures name == FreshName(old(t.nodes), tag, prime)
    ensures prime' == if Present(old(t.nodes), tag) then prime + 1 else prime
  {
    name, prime' := UniqueName(t.nodes, tag, prime);
    assert State(t.nodes, t.byLevel, t.leafsLevel) == State(old(t.nodes), old(t.byLevel), old(t.leafsLevel));
    Hang(t, parent, name, tag, ingress, egress);
  }

  /** Hanging a fresh leaf one level below its parent keeps the tree layered. */
  lemma LayeredHung(s: State, p: nat, child: Node)
    requires Layered(s.nodes, s.byLevel, s.leafs) && p < |s.nodes|
    requires child.parent == Some(p) && child.children == [] && child.level == s.nodes[p].level + 1
    ensures var r := Hanged(s, p, child);
            Layered(r.nodes, r.byLevel, r.leafs)
  {
    LayeredGrow(s.nodes, s.byLevel, s.leafs, p, child);
  }

  /** Registering the freshly hung node at its parent's level plus one turns
      the arena into the `Grow` with that level. */
  lemma HangLevel(nodes0: seq<Node>, hung: seq<Node>, s: seq<Node>, p: nat, child: Node)
    requires p < |nodes0| && child.parent == Some(p) && child.level == nodes0[p].level + 1
    requires hung == Grow(nodes0, p, child.(level := 0))
    requires s == hung[|nodes0| := hung[|nodes0|].(level := hung[hung[|nodes0|].parent.value].level + 1)]
    ensures s == Grow(nodes0, p, child)
  {
    var g := Grow(nodes0, p, child);
    assert |s| == |g|;
    forall j | 0 <= j < |g| ensures s[j] == g[j] {
    }
  }

  /** The rule the outcome reports is the rule that holds at its level. */
  ghost predicate Chose(nodes0: seq<Node>, byLevel0: map<int, seq<nat>>, own: string, conn: string, time: int, o: Outcome)
    requires Wf(nodes0) && IndexInRange(nodes0, byLevel0)
  {
    match o
    case Dropped => true
    case Confirmed(n, level) => RuleAt(nodes0, byLevel0, own, conn, time, level) == Confirm(n)
    case Spawned(n, level, _) => RuleAt(nodes0, byLevel0, own, conn, time, level) == Spawn(n)
    case Attached(m, level, _) => RuleAt(nodes0, byLevel0, own, conn, time, level) == Attach(m)
  }

  /** The node an outcome acts on sits at the outcome's level. */
  ghost predicate Anchored(nodes0: seq<Node>, o: Outcome)
  {
    match o
    case Dropped => true
    case Confirmed(n, level) => n < |nodes0| && nodes0[n].level == level
    case Spawned(n, level, _) => n < |nodes0| && nodes0[n].level == level
    case Attached(m, level, _) => m < |nodes0| && nodes0[m].level == level
  }

  /** A new node's name comes from `FreshName`. */
  ghost predicate Named(nodes0: seq<Node>, prime: nat, own: string, conn: string, o: Outcome)
    requires Wf(nodes0) && |nodes0| >= 1
  {
    match o
    case Dropped => true
    case Confirmed(_, _) => true
    case Spawned(_, _, name) => name == FreshName(nodes0, conn, prime)
    case Attached(_, _, name) => name == FreshName(nodes0, own, prime)
  }

  /** The counter advances exactly when a new node's label was already present. */
  ghost function PrimeAfter(nodes0: seq<Node>, own: string, conn: string, prime: nat, o: Outcome): nat
    requires Wf(nodes0) && |nodes0| >= 1
  {
    match o
    case Dropped => prime
    case Confirmed(_, _) => prime
    case Spawned(_, _, _) => if Present(nodes0, conn) then prime + 1 else prime
    case Attached(_, _, _) => if Present(nodes0, own) then prime + 1 else prime
  }

  /** The tree after the outcome: unchanged when dropped, the confirmed node's
      ingress set, or one new node (labelled with the connected node for rule B,
      with the device's own id for rule C) hung under the matched node. */
  ghost function Enact(s: State, own: string, conn: string, time: int, o: Outcome): State
    requires Anchored(s.nodes, o)
  {
    match o
    case Dropped => s
    case Confirmed(n, _) => s.(nodes := s.nodes[n := s.nodes[n].(ingress := At(time))])
    case Spawned(n, level, name) => Hanged(s, n, Node(name, conn, Some(n), [], level + 1, Unset, At(time)))
    case Attached(m, level, name) => Hanged(s, m, Node(name, own, Some(m), [], level + 1, At(time), Unset))
  }

  /** One level of the search: applies the rule that holds at `level`, if any;
      `Dropped` here means no rule applies at this level and nothing changed. */
  method TryLevel(t: Tree, links: seq<string>, p: Packet, prime: nat, level: int) returns (o: Outcome, prime': nat)
    requires t.Valid() && Layered(t.nodes, t.byLevel, t.leafsLevel) && LinksWellFormed(links)
    modifies t
    ensures t.Valid()
    ensures !o.Dropped? ==> o.level == level
    ensures o.Dropped? ==> RuleAt(old(t.nodes), old(t.byLevel), OwnId(p.device), ConnectedNode(links, p.device), p.capturedAtNano, level) == NoRule
    ensures Chose(old(t.nodes), old(t.byLevel), OwnId(p.device), ConnectedNode(links, p.device), p.capturedAtNano, o)
    ensures Anchored(old(t.nodes), o)
    ensures Named(old(t.nodes), prime, OwnId(p.device), ConnectedNode(links, p.device), o)
    ensures prime' == PrimeAfter(old(t.nodes), OwnId(p.device), ConnectedNode(links, p.device), prime, o)
    ensures State(t.nodes, t.byLevel, t.leafsLevel)
            == Enact(State(old(t.nodes), old(t.byLevel), old(t.leafsLevel)), OwnId(p.device), ConnectedNode(links, p.device),
                     p.capturedAtNano, o)
  {
    var own := OwnId(p.device);
    var n := t.FindNodeByLevel(own, level);
    if n.Some? {
      o, prime' := TryOwn(t, links, p, prime, level, n.value);
    } else {
      o, prime' := TryAttach(t, links, p, prime, level);
    }
  }

  /** What the level-by-level search reads of a tree: a forest with a root
      whose level index lists each node under its own level. `Layered`
      implies it. */
  ghost predicate Searchable(s: State)
  {
    |s.nodes| >= 1 && Wf(s.nodes) && IndexInRange(s.nodes, s.byLevel) && IndexExact(s.nodes, s.byLevel)
  }

  /** What `TryLevel` promises about the level it tried, from state `s0` to `s1`. */
  ghost predicate LevelTried(s0: State, s1: State, own: string, conn: string, time: int, prime: nat, prime': nat,
                             level: int, o: Outcome)
    requires Searchable(s0)
  {
    && (!o.Dropped? ==> o.level == level)
    && (o.Dropped? ==> RuleAt(s0.nodes, s0.byLevel, own, conn, time, level) == NoRule)
    && Chose(s0.nodes, s0.byLevel, own, conn, time, o)
    && Anchored(s0.nodes, o)
    && Named(s0.nodes, prime, own, conn, o)
    && prime' == PrimeAfter(s0.nodes, own, conn, prime, o)
    && s1 == Enact(s0, own, conn, time, o)
  }

  /** Rules B and C hang one node, labelled with the connected node or with
      the device's own id, under the node they matched. */
  lemma EnactHangs(s: State, own: string, conn: string, time: int, o: Outcome)
    requires o.Spawned? || o.Attached?
    requires o.parent < |s.nodes| && s.nodes[o.parent].level == o.level
    ensures o.Spawned? ==> Enact(s, own, conn, time, o)
                           == Hanged(s, o.parent, Node(o.name, conn, Some(o.parent), [], o.level + 1, Unset, At(time)))
    ensures o.Attached? ==> Enact(s, own, conn, time, o)
                            == Hanged(s, o.parent, Node(o.name, own, Some(o.parent), [], o.level + 1, At(time), Unset))
  {
  }

  /** Rule A as `TryLevel` applies it meets its promise. */
  lemma ConfirmTried(s0: State, s1: State, own: string, conn: string, time: int, prime: nat, level: int, n: nat)
    requires Searchable(s0)
    requires n < |s0.nodes| && s0.nodes[n].level == level
    requires RuleAt(s0.nodes, s0.byLevel, own, conn, time, level) == Confirm(n)
    requires s1 == s0.(nodes := s0.nodes[n := s0.nodes[n].(ingress := At(time))])
    ensures LevelTried(s0, s1, own, conn, time, prime, prime, level, Confirmed(n, level))
  {
  }

  /** A level where no rule holds leaves the tree and the counter alone. */
  lemma NothingTried(s0: State, own: string, conn: string, time: int, prime: nat, level: int)
    requires Searchable(s0)
    requires RuleAt(s0.nodes, s0.byLevel, own, conn, time, level) == NoRule
    ensures LevelTried(s0, s0, own, conn, time, prime, prime, level, Dropped)
  {
  }

  /** Rule B as `TryLevel` applies it meets its promise. */
  lemma SpawnTried(s0: State, s1: State, own: string, conn: string, time: int, prime: nat, prime': nat,
                   level: int, n: nat, name: string)
    requires Searchable(s0)
    requires n < |s0.nodes| && s0.nodes[n].level == level
    requires RuleAt(s0.nodes, s0.byLevel, own, conn, time, level) == Spawn(n)
    requires name == FreshName(s0.nodes, conn, prime)
    requires prime' == if Present(s0.nodes, conn) then prime + 1 else prime
    requires s1 == Hanged(s0, n, Node(name, conn, Some(n), [], level + 1, Unset, At(time)))
    ensures LevelTried(s0, s1, own, conn, time, prime, prime', level, Spawned(n, level, name))
  {
    var o := Spawned(n, level, name);
    EnactHangs(s0, own, conn, time, o);
    assert Anchored(s0.nodes, o);
    assert Chose(s0.nodes, s0.byLevel, own, conn, time, o);
    assert Named(s0.nodes, prime, own, conn, o);
    assert prime' == PrimeAfter(s0.nodes, own, conn, prime, o);
    assert s1 == Enact(s0, own, conn, time, o);
  }

  /** Rule C as `TryLevel` applies it meets its promise. */
  lemma AttachTried(s0: State, s1: State, own: string, conn: string, time: int, prime: nat, prime': nat,
                    level: int, m: nat, name: string)
    requires Searchable(s0)
    requires m < |s0.nodes| && s0.nodes[m].level == level
    requires RuleAt(s0.nodes, s0.byLevel, own, conn, time, level) == Attach(m)
    requires name == FreshName(s0.nodes, own, prime)
    requires prime' == if Present(s0.nodes, own) then prime + 1 else prime
    requires s1 == Hanged(s0, m, Node(name, own, Some(m), [], level + 1, At(time), Unset))
    ensures LevelTried(s0, s1, own, conn, time, prime, prime', level, Attached(m, level, name))
  {
    var o := Attached(m, level, name);
    EnactHangs(s0, own, conn, time, o);
    assert Anchored(s0.nodes, o);
    assert Chose(s0.nodes, s0.byLevel, own, conn, time, o);
    assert Named(s0.nodes, prime, own, conn, o);
    assert prime' == PrimeAfter(s0.nodes, own, conn, prime, o);
    assert s1 == Enact(s0, own, conn, time, o);
  }

  /** `TryLevel` when the level has a node labelled with the device's own id:
      rule A confirms it, rule B hangs the connected node under it, or
      nothing happens. */
  method TryOwn(t: Tree, links: seq<string>, p: Packet, prime: nat, level: int, n: nat) returns (o: Outcome, prime': nat)
    requires t.Valid() && Layered(t.nodes, t.byLevel, t.leafsLevel) && LinksWellFormed(links)
    requires Lookup(t.nodes, AtLevel(t.byLevel, level), OwnId(p.device)) == Some(n)
    modifies t
    ensures t.Valid()
    ensures LevelTried(State(old(t.nodes), old(t.byLevel), old(t.leafsLevel)), State(t.nodes, t.byLevel, t.leafsLevel),
                       OwnId(p.device), ConnectedNode(links, p.device), p.capturedAtNano, prime, prime', level, o)
  {
    ghost var s0 := State(t.nodes, t.byLevel, t.leafsLevel);
    var own := OwnId(p.device);
    var time := p.capturedAtNano;
    ghost var conn := ConnectedNode(links, p.device);
    var connected := GetConnectedNode(links, p.device);
    var node := t.nodes[n];
    LevelOfIndexed(s0.nodes, s0.byLevel, level, n);
    if node.parent.Some? && t.nodes[node.parent.value].name == connected && node.ingress.Unset?
       && Before(t.nodes[node.parent.value].egress, At(time))
    {
      assert RuleAt(s0.nodes, s0.byLevel, own, conn, time, level) == Confirm(n);
      t.SetIngress(n, At(time));
      o, prime' := Confirmed(n, level), prime;
      ConfirmTried(s0, State(t.nodes, t.byLevel, t.leafsLevel), own, conn, time, prime, level, n);
    } else if node.parent.Some? && node.ingress.At? && Before(node.ingress, At(time)) {
      assert RuleAt(s0.nodes, s0.byLevel, own, conn, time, level) == Spawn(n);
      assert State(t.nodes, t.byLevel, t.leafsLevel) == s0;
      var name;
      name, prime' := HangNamed(t, n, level, connected, prime, Unset, At(time));
      o := Spawned(n, level, name);
      SpawnTried(s0, State(t.nodes, t.byLevel, t.leafsLevel), own, conn, time, prime, prime', level, n, name);
    } else {
      assert RuleAt(s0.nodes, s0.byLevel, own, conn, time, level) == NoRule;
      o, prime' := Dropped, prime;
      NothingTried(s0, own, conn, time, prime, level);
    }
  }

  /** `TryLevel` when the level has no node labelled with the device's own id:
      rule C hangs the device under the first node labelled with the
      connected node, if there is one. */
  method TryAttach(t: Tree, links: seq<string>, p: Packet, prime: nat, level: int) returns (o: Outcome, prime': nat)
    requires t.Valid() && Layered(t.nodes, t.byLevel, t.leafsLevel) && LinksWellFormed(links)
    requires Lookup(t.nodes, AtLevel(t.byLevel, level), OwnId(p.device)).None?
    modifies t
    ensures t.Valid()
    ensures LevelTried(State(old(t.nodes), old(t.byLevel), old(t.leafsLevel)), State(t.nodes, t.byLevel, t.leafsLevel),
                       OwnId(p.device), ConnectedNode(links, p.device), p.capturedAtNano, prime, prime', level, o)
  {
    ghost var s0 := State(t.nodes, t.byLevel, t.leafsLevel);
    var own := OwnId(p.device);
    var time := p.capturedAtNano;
    ghost var conn := ConnectedNode(links, p.device);
    var connected := GetConnectedNode(links, p.device);
    var m := t.FindNodeByLevel(connected, level);
    if m.Some? {
      assert RuleAt(s0.nodes, s0.byLevel, own, conn, time, level) == Attach(m.value);
      LevelOfIndexed(t.nodes, t.byLevel, level, m.value);
      assert State(t.nodes, t.byLevel, t.leafsLevel) == s0;
      var name;
      name, prime' := HangNamed(t, m.value, level, own, prime, At(time), Unset);
      o := Attached(m.value, level, name);
      AttachTried(s0, State(t.nodes, t.byLevel, t.leafsLevel), own, conn, time, prime, prime', level, m.value, name);
    } else {
      assert RuleAt(s0.nodes, s0.byLevel, own, conn, time, level) == NoRule;
      o, prime' := Dropped, prime;
      NothingTried(s0, own, conn, time, prime, level);
    }
  }

  /** Whatever rule was applied, the tree stays layered. */
  lemma LayeredEnact(s: State, own: string, conn: string, time: int, o: Outcome)
    requires Layered(s.nodes, s.byLevel, s.leafs) && Anchored(s.nodes, o)
    ensures var r := Enact(s, own, conn, time, o);
            Layered(r.nodes, r.byLevel, r.leafs)
  {
    if o.Confirmed? {
      LayeredRestamp(s.nodes, s.byLevel, s.leafs, o.node, s.nodes[o.node].(ingress := At(time)));
    } else if o.Spawned? {
      LayeredHung(s, o.parent, Node(o.name, conn, Some(o.parent), [], o.level + 1, Unset, At(time)));
    } else if o.Attached? {
      LayeredHung(s, o.parent, Node(o.name, own, Some(o.parent), [], o.level + 1, At(time), Unset));
    }
  }

  /** No rule at `level` nor above it means no rule from `level` up. */
  lemma NoRuleDown(nodes0: seq<Node>, byLevel0: map<int, seq<nat>>, own: string, conn: string, time: int,
                   level: int, top: int)
    requires Wf(nodes0) && IndexInRange(nodes0, byLevel0)
    requires forall l :: level < l <= top ==> RuleAt(nodes0, byLevel0, own, conn, time, l) == NoRule
    requires RuleAt(nodes0, byLevel0, own, conn, time, level) == NoRule
    ensures forall l :: level - 1 < l <= top ==> RuleAt(nodes0, byLevel0, own, conn, time, l) == NoRule
  {
  }

  /** A node listed at `level` in the index sits at that level. */
  lemma LevelOfIndexed(nodes: seq<Node>, byLevel: map<int, seq<nat>>, level: int, n: nat)
    requires IndexInRange(nodes, byLevel) && IndexExact(nodes, byLevel) && n in AtLevel(byLevel, level)
    ensures n < |nodes| && nodes[n].level == level
  {
    var k :| 0 <= k < |AtLevel(byLevel, level)| && AtLevel(byLevel, level)[k] == n;
  }

  /** The search for one record, from `level` down to the root level: the
      outcome of the first level where a rule holds, `Dropped` when none does. */
  ghost function Decide(s: State, own: string, conn: string, time: int, prime: nat, level: int): (o: Outcome)
    requires Searchable(s)
    ensures Anchored(s.nodes, o) && Named(s.nodes, prime, own, conn, o)
    ensures !o.Dropped? ==> 1 <= o.level <= level
    decreases level
  {
    if level < 1 then Dropped
    else
      var r := RuleAt(s.nodes, s.byLevel, own, conn, time, level);
      if r.NoRule? then Decide(s, own, conn, time, prime, level - 1)
      else
        LevelOfIndexed(s.nodes, s.byLevel, level, r.n);
        if r.Confirm? then Confirmed(r.n, level)
        else if r.Spawn? then Spawned(r.n, level, FreshName(s.nodes, conn, prime))
        else Attached(r.n, level, FreshName(s.nodes, own, prime))
  }

  /** The search stops at a level whose rule the outcome reports. */
  lemma DecideHere(s: State, own: string, conn: string, time: int, prime: nat, level: int, o: Outcome)
    requires Searchable(s) && 1 <= level
    requires !o.Dropped? && o.level == level
    requires Chose(s.nodes, s.byLevel, own, conn, time, o) && Named(s.nodes, prime, own, conn, o)
    ensures Decide(s, own, conn, time, prime, level) == o
  {
    match o
    case Confirmed(n, _) =>
      assert RuleAt(s.nodes, s.byLevel, own, conn, time, level) == Confirm(n);
    case Spawned(n, _, _) =>
      assert RuleAt(s.nodes, s.byLevel, own, conn, time, level) == Spawn(n);
    case Attached(m, _, _) =>
      assert RuleAt(s.nodes, s.byLevel, own, conn, time, level) == Attach(m);
  }

  /** Levels without a rule are skipped: searching from `top` finds what
      searching from `level` finds when no level in between has a rule. */
  lemma {:induction false} DecideSkips(s: State, own: string, conn: string, time: int, prime: nat, level: int, top: int)
    requires Searchable(s) && level <= top
    requires forall l :: level < l <= top ==> RuleAt(s.nodes, s.byLevel, own, conn, time, l) == NoRule
    ensures Decide(s, own, conn, time, prime, top) == Decide(s, own, conn, time, prime, level)
    decreases top - level
  {
    if level < top {
      DecideSkips(s, own, conn, time, prime, level, top - 1);
    }
  }

  /** One record of `Generate`'s loop, as a function of the tree and the
      counter: search from `LeafsLevel` down and apply the rule found. */
  ghost function Placed(links: seq<string>, rec: Packet, s: State, prime: nat): (r: (State, nat))
    requires Layered(s.nodes, s.byLevel, s.leafs) && LinksWellFormed(links)
    ensures Layered(r.0.nodes, r.0.byLevel, r.0.leafs)
  {
    var own, conn, time := OwnId(rec.device), ConnectedNode(links, rec.device), rec.capturedAtNano;
    var o := Decide(s, own, conn, time, prime, s.leafs);
    LayeredEnact(s, own, conn, time, o);
    (Enact(s, own, conn, time, o), PrimeAfter(s.nodes, own, conn, prime, o))
  }

  /** The loop body of `Generate` for one record: search from the deepest level
      towards the root for the first level where a rule applies and apply it;
      the record is dropped when no level has one. */
  method Place(t: Tree, links: seq<string>, p: Packet, prime: nat) returns (o: Outcome, prime': nat)
    requires t.Valid() && Layered(t.nodes, t.byLevel, t.leafsLevel) && LinksWellFormed(links)
    modifies t
    ensures t.Valid() && Layered(t.nodes, t.byLevel, t.leafsLevel)
    ensures o == Decide(State(old(t.nodes), old(t.byLevel), old(t.leafsLevel)), OwnId(p.device),
                        ConnectedNode(links, p.device), p.capturedAtNano, prime, old(t.leafsLevel))
    ensures (State(t.nodes, t.byLevel, t.leafsLevel), prime')
            == Placed(links, p, State(old(t.nodes), old(t.byLevel), old(t.leafsLevel)), prime)
  {
    ghost var s0 := State(t.nodes, t.byLevel, t.leafsLevel);
    ghost var own, conn, time := OwnId(p.device), ConnectedNode(links, p.device), p.capturedAtNano;
    var level := t.leafsLevel;
    while true
      invariant 1 <= level <= s0.leafs
      invariant State(t.nodes, t.byLevel, t.leafsLevel) == s0
      invariant forall l :: level < l <= s0.leafs ==> RuleAt(s0.nodes, s0.byLevel, own, conn, time, l) == NoRule
      decreases level
    {
      o, prime' := TryLevel(t, links, p, prime, level);
      if !o.Dropped? {
        LayeredEnact(s0, own, conn, time, o);
        DecideHere(s0, own, conn, time, prime, level, o);
        DecideSkips(s0, own, conn, time, prime, level, s0.leafs);
        return;
      }
      assert State(t.nodes, t.byLevel, t.leafsLevel) == s0;
      NoRuleDown(s0.nodes, s0.byLevel, own, conn, time, level, s0.leafs);
      if level == 1 {
        DecideSkips(s0, own, conn, time, prime, 0, s0.leafs);
        return;
      }
      level := level - 1;
    }
  }

  /** Present means: some node of the tree carries the label. */
  lemma PresentMeans(nodes: seq<Node>, byLevel: map<int, seq<nat>>, leafs: int, tag: string)
    requires Layered(nodes, byLevel, leafs)
    ensures Present(nodes, tag) <==> exists j :: 0 <= j < |nodes| && nodes[j].tag == tag
  {
    if j :| 0 <= j < |nodes| && nodes[j].tag == tag {
      Reachable(nodes, j);
      var k :| 0 <= k < |Preorder(nodes, 0)| && Preorder(nodes, 0)[k] == j;
    }
  }

  /** A record for which no level has a rule is dropped and leaves the tree
      and the counter as they were. */
  lemma DroppedUnchanged(links: seq<string>, rec: Packet, s: State, prime: nat)
    requires Layered(s.nodes, s.byLevel, s.leafs) && LinksWellFormed(links)
    requires forall l :: 1 <= l <= s.leafs ==>
               RuleAt(s.nodes, s.byLevel, OwnId(rec.device), ConnectedNode(links, rec.device), rec.capturedAtNano, l) == NoRule
    ensures Placed(links, rec, s, prime) == (s, prime)
  {
    DecideSkips(s, OwnId(rec.device), ConnectedNode(links, rec.device), rec.capturedAtNano, prime, 0, s.leafs);
  }

  /** Placing a record adds at most one node and never lowers `LeafsLevel`,
      which grows by at most one; the root keeps its name and label. */
  lemma PlacedGrowth(links: seq<string>, rec: Packet, s: State, prime: nat)
    requires Layered(s.nodes, s.byLevel, s.leafs) && LinksWellFormed(links)
    ensures var r := Placed(links, rec, s, prime).0;
            && |s.nodes| <= |r.nodes| <= |s.nodes| + 1
            && s.leafs <= r.leafs <= s.leafs + 1
            && r.nodes[0].name == s.nodes[0].name && r.nodes[0].tag == s.nodes[0].tag
  {
    var own, conn, time := OwnId(rec.device), ConnectedNode(links, rec.device), rec.capturedAtNano;
    var o := Decide(s, own, conn, time, prime, s.leafs);
    assert Placed(links, rec, s, prime).0 == Enact(s, own, conn, time, o);
    EnactGrowth(s, own, conn, time, o);
  }

  lemma EnactGrowth(s: State, own: string, conn: string, time: int, o: Outcome)
    requires |s.nodes| >= 1 && Anchored(s.nodes, o) && (!o.Dropped? ==> o.level <= s.leafs)
    ensures var r := Enact(s, own, conn, time, o);
            && |s.nodes| <= |r.nodes| <= |s.nodes| + 1
            && s.leafs <= r.leafs <= s.leafs + 1
            && r.nodes[0].name == s.nodes[0].name && r.nodes[0].tag == s.nodes[0].tag
  {
  }

  /** Every level is at most `LeafsLevel`. */
  lemma DeepestBound(s: State)
    requires Layered(s.nodes, s.byLevel, s.leafs)
    ensures forall j :: 0 <= j < |s.nodes| ==> s.nodes[j].level <= s.leafs
  {
  }

  /** The tree `Generate` starts from: the root alone at level 1. */
  function Start(root: string): (s: State)
    ensures Layered(s.nodes, s.byLevel, s.leafs)
  {
    State([Node(root, root, None, [], 1, Unset, Unset)], map[1 := [0]], 1)
  }

  /** The tree and the counter after placing `recs` in order, starting from
      the root alone and the counter at 0. */
  ghost function Replay(links: seq<string>, recs: seq<Packet>, root: string): (State, nat)
    requires LinksWellFormed(links)
    decreases |recs|, 0
  {
    if recs == [] then (Start(root), 0)
    else
      ReplayLayered(links, recs[..|recs| - 1], root);
      var (s, prime) := Replay(links, recs[..|recs| - 1], root);
      Placed(links, recs[|recs| - 1], s, prime)
  }

  /** Every replayed tree is layered. */
  lemma {:induction false} ReplayLayered(links: seq<string>, recs: seq<Packet>, root: string)
    requires LinksWellFormed(links)
    ensures var s := Replay(links, recs, root).0;
            Layered(s.nodes, s.byLevel, s.leafs)
    decreases |recs|, 1
  {
    if recs != [] {
      ReplayLayered(links, recs[..|recs| - 1], root);
    }
  }

  /** Each record adds at most one node, so a flow of n records yields at most
      n + 1 nodes and at most n + 1 levels; the root stays as created. */
  lemma {:induction false} ReplayGrowth(links: seq<string>, recs: seq<Packet>, root: string)
    requires LinksWellFormed(links)
    ensures var s := Replay(links, recs, root).0;
            && 1 <= |s.nodes| <= |recs| + 1 && 1 <= s.leafs <= |recs| + 1
            && s.nodes[0].name == root && s.nodes[0].tag == root && s.nodes[0].parent.None?
  {
    if recs != [] {
      var (s, prime) := Replay(links, recs[..|recs| - 1], root);
      ReplayGrowth(links, recs[..|recs| - 1], root);
      PlacedGrowth(links, recs[|recs| - 1], s, prime);
    }
  }

  /** On the starting tree, the only node is the root, so a label is found
      exactly when it is the root's. */
  lemma StartLookup(root: string, tag: string)
    ensures var s := Start(root);
            && AtLevel(s.byLevel, 1) == [0] && Preorder(s.nodes, 0) == [0]
            && Lookup(s.nodes, [0], tag) == if tag == root then Some(0) else None
  {
    var s := Start(root);
    assert Preorder(s.nodes, 0) == [0] + PreorderKids(s.nodes, 0, 0);
  }

  /** On the starting tree, a record whose own id is not the root attaches
      under the root; one whose own id is the root matches no rule, since the
      root has no parent. */
  lemma StartRule(root: string, own: string, time: int)
    ensures var s := Start(root);
            RuleAt(s.nodes, s.byLevel, own, root, time, 1) == if own == root then NoRule else Attach(0)
  {
    StartLookup(root, own);
    StartLookup(root, root);
  }

  /** A flow of one record: when the device's own id differs from the node
      it is connected to, the record is attached under the root as a second
      level, with its own id as name and label and its time as ingress;
      otherwise no rule applies and the tree stays the root alone. */
  lemma SingleRecord(links: seq<string>, rec: Packet)
    requires LinksWellFormed(links)
    ensures var root, own := ConnectedNode(links, rec.device), OwnId(rec.device);
            var (s, prime) := Replay(links, [rec], root);
            if own != root then
              && s.nodes == [Node(root, root, None, [1], 1, Unset, Unset),
                             Node(own, own, Some(0), [], 2, At(rec.capturedAtNano), Unset)]
              && s.leafs == 2 && prime == 0
            else s == Start(root) && prime == 0
  {
    var root, own, time := ConnectedNode(links, rec.device), OwnId(rec.device), rec.capturedAtNano;
    var s0 := Start(root);
    assert [rec][..0] == [];
    assert Replay(links, [rec], root) == Placed(links, rec, s0, 0);
    if own == root {
      StartRule(root, own, time);
      assert Decide(s0, own, root, time, 0, 1) == Decide(s0, own, root, time, 0, 0) == Dropped;
    } else {
      StartAttach(root, own, time);
    }
  }

  /** The starting tree's one level attaches a device whose own id is not the
      root under the root, by its bare own id, without advancing the counter. */
  lemma StartAttach(root: string, own: string, time: int)
    requires own != root
    ensures var s0, o := Start(root), Attached(0, 1, own);
            && Decide(s0, own, root, time, 0, 1) == o
            && PrimeAfter(s0.nodes, own, root, 0, o) == 0
            && Enact(s0, own, root, time, o).nodes
               == [Node(root, root, None, [1], 1, Unset, Unset), Node(own, own, Some(0), [], 2, At(time), Unset)]
            && Enact(s0, own, root, time, o).leafs == 2
  {
    var s0, o := Start(root), Attached(0, 1, own);
    StartRule(root, own, time);
    StartLookup(root, own);
    assert !Present(s0.nodes, own);
    var child := Node(own, own, Some(0), [], 2, At(time), Unset);
    assert Enact(s0, own, root, time, o) == Hanged(s0, 0, child);
    StartGrow(root, child);
  }

  /** Hanging a child under the lone root. */
  lemma StartGrow(root: string, child: Node)
    ensures var h := Hanged(Start(root), 0, child);
            && h.nodes == [Node(root, root, None, [1], 1, Unset, Unset), child]
            && h.leafs == if child.level > 1 then child.level else 1
  {
    var s := Start(root);
    assert s.nodes[0].children + [|s.nodes|] == [1];
    assert Grow(s.nodes, 0, child) == [Node(root, root, None, [1], 1, Unset, Unset)] + [child];
  }

  /** A name with an optional counter suffix. */
  function Suffixed(tag: string, suffix: Option<nat>): string
  {
    if suffix.Some? then tag + "_" + NatToString(suffix.value) else tag
  }

  /** How many entries carry a suffix. */
  function CountSuffixed(suffix: seq<Option<nat>>): (c: nat)
    ensures c <= |suffix|
  {
    if suffix == [] then 0
    else CountSuffixed(suffix[..|suffix| - 1]) + if suffix[|suffix| - 1].Some? then 1 else 0
  }

  /** The naming discipline: node j is named by its label with suffix
      `suffix[j]`; suffixes grow in creation order and stay below the counter,
      which counts them; no two unsuffixed nodes share a label. */
  ghost predicate NamesFrom(nodes: seq<Node>, suffix: seq<Option<nat>>, prime: nat)
  {
    && |suffix| == |nodes|
    && (forall j :: 0 <= j < |nodes| ==> nodes[j].name == Suffixed(nodes[j].tag, suffix[j]))
    && (forall j :: 0 <= j < |nodes| && suffix[j].Some? ==> suffix[j].value < prime)
    && (forall i, j :: 0 <= i < j < |nodes| && suffix[i].Some? && suffix[j].Some? ==> suffix[i].value < suffix[j].value)
    && (forall i, j :: 0 <= i < j < |nodes| && suffix[i].None? && suffix[j].None? ==> nodes[i].tag != nodes[j].tag)
    && prime == CountSuffixed(suffix)
  }

  /** Under the naming discipline, two suffixed nodes never share a name, nor
      do two unsuffixed ones. */
  lemma NamesDistinct(nodes: seq<Node>, suffix: seq<Option<nat>>, prime: nat, i: nat, j: nat)
    requires NamesFrom(nodes, suffix, prime) && i < j < |nodes| && suffix[i].Some? == suffix[j].Some?
    ensures nodes[i].name != nodes[j].name
  {
    if suffix[i].Some? {
      SuffixedNamesDiffer(nodes[i].tag, nodes[j].tag, suffix[i].value, suffix[j].value);
    }
  }

  /** A new node keeps the naming discipline when it is named by its label
      with the counter as suffix, or by its bare label when no node has it yet. */
  lemma NamesGrow(nodes: seq<Node>, suffix: seq<Option<nat>>, prime: nat, p: nat, child: Node, taken: bool)
    returns (suffix': seq<Option<nat>>)
    requires NamesFrom(nodes, suffix, prime) && p < |nodes|
    requires taken ==> child.name == Suffixed(child.tag, Some(prime))
    requires !taken ==> child.name == child.tag && forall j :: 0 <= j < |nodes| ==> nodes[j].tag != child.tag
    ensures NamesFrom(Grow(nodes, p, child), suffix', if taken then prime + 1 else prime)
  {
    suffix' := suffix + [if taken then Some(prime) else None];
    assert suffix'[..|nodes|] == suffix;
    GrowNamed(nodes, suffix, prime, p, child, taken);
    GrowDistinct(nodes, suffix, prime, p, child, taken);
  }

  /** After the growth, every node is still named by its label and suffix. */
  lemma GrowNamed(nodes: seq<Node>, suffix: seq<Option<nat>>, prime: nat, p: nat, child: Node, taken: bool)
    requires NamesFrom(nodes, suffix, prime) && p < |nodes|
    requires taken ==> child.name == Suffixed(child.tag, Some(prime))
    requires !taken ==> child.name == child.tag
    ensures var nodes', suffix' := Grow(nodes, p, child), suffix + [if taken then Some(prime) else None];
            forall j :: 0 <= j < |nodes'| ==> nodes'[j].name == Suffixed(nodes'[j].tag, suffix'[j])
  {
    var nodes', suffix' := Grow(nodes, p, child), suffix + [if taken then Some(prime) else None];
    forall j | 0 <= j < |nodes'|
      ensures nodes'[j].name == Suffixed(nodes'[j].tag, suffix'[j])
    {
      if j < |nodes| {
        assert nodes'[j].name == nodes[j].name && nodes'[j].tag == nodes[j].tag;
      }
    }
  }

  /** After the growth, suffixes still increase with creation order and bare
      labels are still pairwise distinct. */
  lemma GrowDistinct(nodes: seq<Node>, suffix: seq<Option<nat>>, prime: nat, p: nat, child: Node, taken: bool)
    requires NamesFrom(nodes, suffix, prime) && p < |nodes|
    requires !taken ==> forall j :: 0 <= j < |nodes| ==> nodes[j].tag != child.tag
    ensures var nodes', suffix' := Grow(nodes, p, child), suffix + [if taken then Some(prime) else None];
            && (forall i, j :: 0 <= i < j < |nodes'| && suffix'[i].Some? && suffix'[j].Some? ==> suffix'[i].value < suffix'[j].value)
            && (forall i, j :: 0 <= i < j < |nodes'| && suffix'[i].None? && suffix'[j].None? ==> nodes'[i].tag != nodes'[j].tag)
  {
    var nodes', suffix' := Grow(nodes, p, child), suffix + [if taken then Some(prime) else None];
    forall i, j | 0 <= i < j < |nodes'| && suffix'[i].Some? && suffix'[j].Some?
      ensures suffix'[i].value < suffix'[j].value
    {
      assert suffix'[i] == suffix[i];
    }
    forall i, j | 0 <= i < j < |nodes'| && suffix'[i].None? && suffix'[j].None?
      ensures nodes'[i].tag != nodes'[j].tag
    {
      assert suffix'[i] == suffix[i] && nodes'[i].tag == nodes[i].tag;
    }
  }

  /** A new node named by `FreshName` keeps the naming discipline. */
  lemma NamesHung(s: State, suffix: seq<Option<nat>>, prime: nat, p: nat, child: Node) returns (suffix': seq<Option<nat>>)
    requires Layered(s.nodes, s.byLevel, s.leafs) && NamesFrom(s.nodes, suffix, prime) && p < |s.nodes|
    requires child.name == FreshName(s.nodes, child.tag, prime)
    ensures NamesFrom(Hanged(s, p, child).nodes, suffix', if Present(s.nodes, child.tag) then prime + 1 else prime)
  {
    PresentMeans(s.nodes, s.byLevel, s.leafs, child.tag);
    suffix' := NamesGrow(s.nodes, suffix, prime, p, child, Present(s.nodes, child.tag));
  }

  /** Placing a record keeps the naming discipline. */
  lemma NamesPlaced(links: seq<string>, rec: Packet, s: State, prime: nat, suffix: seq<Option<nat>>)
    returns (suffix': seq<Option<nat>>)
    requires Layered(s.nodes, s.byLevel, s.leafs) && LinksWellFormed(links) && NamesFrom(s.nodes, suffix, prime)
    ensures var (s', prime') := Placed(links, rec, s, prime);
            NamesFrom(s'.nodes, suffix', prime')
  {
    var own, conn, time := OwnId(rec.device), ConnectedNode(links, rec.device), rec.capturedAtNano;
    var o := Decide(s, own, conn, time, prime, s.leafs);
    assert Placed(links, rec, s, prime) == (Enact(s, own, conn, time, o), PrimeAfter(s.nodes, own, conn, prime, o));
    suffix' := NamesEnact(s, own, conn, time, prime, o, suffix);
  }

  /** Applying an outcome whose new node is named by `FreshName` keeps the
      naming discipline. */
  lemma NamesEnact(s: State, own: string, conn: string, time: int, prime: nat, o: Outcome, suffix: seq<Option<nat>>)
    returns (suffix': seq<Option<nat>>)
    requires Layered(s.nodes, s.byLevel, s.leafs) && NamesFrom(s.nodes, suffix, prime)
    requires Anchored(s.nodes, o) && Named(s.nodes, prime, own, conn, o)
    ensures NamesFrom(Enact(s, own, conn, time, o).nodes, suffix', PrimeAfter(s.nodes, own, conn, prime, o))
  {
    if o.Spawned? {
      suffix' := NamesHung(s, suffix, prime, o.parent, Node(o.name, conn, Some(o.parent), [], o.level + 1, Unset, At(time)));
    } else if o.Attached? {
      suffix' := NamesHung(s, suffix, prime, o.parent, Node(o.name, own, Some(o.parent), [], o.level + 1, At(time), Unset));
    } else {
      suffix' := suffix;
      if o.Confirmed? {
        NamesRestamp(s.nodes, suffix, prime, o.node, s.nodes[o.node].(ingress := At(time)));
      }
    }
  }

  /** Restamping a node keeps the naming discipline. */
  lemma NamesRestamp(nodes: seq<Node>, suffix: seq<Option<nat>>, prime: nat, i: nat, x: Node)
    requires NamesFrom(nodes, suffix, prime) && i < |nodes| && x.name == nodes[i].name && x.tag == nodes[i].tag
    ensures NamesFrom(nodes[i := x], suffix, prime)
  {
    var nodes' := nodes[i := x];
    assert forall j :: 0 <= j < |nodes| ==> nodes'[j].name == nodes[j].name && nodes'[j].tag == nodes[j].tag;
  }

  /** Every tree `Generate` builds follows the naming discipline. */
  lemma {:induction false} ReplayNames(links: seq<string>, recs: seq<Packet>, root: string)
    returns (suffix: seq<Option<nat>>)
    requires LinksWellFormed(links)
    ensures var (s, prime) := Replay(links, recs, root);
            NamesFrom(s.nodes, suffix, prime)
  {
    if recs == [] {
      suffix := [None];
    } else {
      var (s, prime) := Replay(links, recs[..|recs| - 1], root);
      var suffix0 := ReplayNames(links, recs[..|recs| - 1], root);
      suffix := NamesPlaced(links, recs[|recs| - 1], s, prime, suffix0);
    }
  }

  // ---------------------------------------------------------------------------
  // One flow tree per flow

  /** The sort key of `Generate`: the record's nanosecond timestamp. */
  function NanoKey(p: Packet): int
  {
    p.capturedAtNano
  }

  /** The DOT file name of a flow: the key without its last ten characters. */
  function DotFileName(key: string): (f: string)
    requires |key| >= 10
    ensures f == key[..|key| - 10] + ".dot"
  {
    key[..|key| - 10] + ".dot"
  }

  /** `Tree.ToDOT(key, label)` on the finished arena. */
  type DotWriter = (seq<Node>, string, string) -> string

  /** `dot.Generate(fileName, dot)`: the rendered image. */
  type Renderer = (string, string) -> string

  /** The flow tree `Generate` produces for `key`: records in timestamp order,
      the root named after the node on the far side of the first record's
      interface, every record placed in turn; the metadata comes from the
      first record, `Level` is the final `LeafsLevel`, `Edges` the tree's
      edge paths, and no verdict yet. */
  ghost function FlowTreeOf(links: seq<string>, key: string, recs: seq<Packet>, toDot: DotWriter, render: Renderer)
    : (ft: FlowTree)
    requires LinksWellFormed(links) && |recs| > 0 && |key| >= 10
    ensures ft.id == key
  {
    var sorted := SortBy(recs, NanoKey);
    assert |sorted| == |multiset(sorted)| == |multiset(recs)| == |recs|;
    var first := sorted[0];
    var s := Replay(links, sorted, ConnectedNode(links, first.device)).0;
    var protocol := GetType(first.typeCode);
    var dot := toDot(s.nodes, key, protocol + " " + first.dstPort);
    FlowTree(key, protocol, first.srcIp, first.dstIp, first.srcPort, first.dstPort, dot,
             render(DotFileName(key), dot), first.capturedAt, s.leafs, TreeEdges(s.nodes), false)
  }

  /** What every flow tree satisfies: its nodes number at most one more than
      its records and so does its `Level`, which is at least 1; it has no
      verdict yet; and its metadata are those of a record with the earliest
      nanosecond timestamp. */
  lemma FlowTreeShape(links: seq<string>, key: string, recs: seq<Packet>, toDot: DotWriter, render: Renderer)
    requires LinksWellFormed(links) && |recs| > 0 && |key| >= 10
    ensures var ft := FlowTreeOf(links, key, recs, toDot, render);
            && ft.id == key && 1 <= ft.level <= |recs| + 1 && !ft.isSat
            && exists r :: r in recs && (forall q :: q in recs ==> r.capturedAtNano <= q.capturedAtNano)
                 && ft.capturedAt == r.capturedAt && ft.protocol == GetType(r.typeCode)
                 && ft.srcIp == r.srcIp && ft.dstIp == r.dstIp && ft.srcPort == r.srcPort && ft.dstPort == r.dstPort
  {
    var sorted := SortBy(recs, NanoKey);
    SortedHeadLeast(recs, NanoKey);
    ReplayGrowth(links, sorted, ConnectedNode(links, sorted[0].device));
    var r := sorted[0];
    assert forall q :: q in recs ==> r.capturedAtNano <= q.capturedAtNano;
  }

  /** A flow tree's `Level` is the deepest level of a layered tree of at most
      one node more than the flow has records, and its `Edges` are that
      tree's root-to-leaf edge paths. */
  lemma FlowTreeLevel(links: seq<string>, key: string, recs: seq<Packet>, toDot: DotWriter, render: Renderer)
    requires LinksWellFormed(links) && |recs| > 0 && |key| >= 10
    ensures var ft := FlowTreeOf(links, key, recs, toDot, render);
            exists s: State :: && Layered(s.nodes, s.byLevel, s.leafs) && |s.nodes| <= |recs| + 1
                               && ft.level == s.leafs && ft.edges == TreeEdges(s.nodes)
  {
    var sorted := SortBy(recs, NanoKey);
    SortedHeadLeast(recs, NanoKey);
    var root := ConnectedNode(links, sorted[0].device);
    ReplayGrowth(links, sorted, root);
    ReplayLayered(links, sorted, root);
    var s := Replay(links, sorted, root).0;
    assert Layered(s.nodes, s.byLevel, s.leafs) && |s.nodes| <= |recs| + 1;
  }

  /** Replaying one more record places it on the tree replayed so far. */
  lemma ReplayStep(links: seq<string>, recs: seq<Packet>, root: string, i: nat)
    requires LinksWellFormed(links) && i < |recs|
    ensures var (s, prime) := Replay(links, recs[..i], root);
            Replay(links, recs[..i + 1], root) == Placed(links, recs[i], s, prime)
  {
    assert recs[..i + 1][..i] == recs[..i];
  }

  /** The placement loop of `Generate`: a tree holding the root alone, then
      every record placed in order, with the suffix counter starting at 0. */
  method Reconstruct(links: seq<string>, recs: seq<Packet>, root: string) returns (t: Tree)
    requires LinksWellFormed(links)
    ensures fresh(t) && t.Valid()
    ensures State(t.nodes, t.byLevel, t.leafsLevel) == Replay(links, recs, root).0
  {
    t := new Tree(root, root);
    var prime := 0;
    for i := 0 to |recs|
      invariant t.Valid() && (State(t.nodes, t.byLevel, t.leafsLevel), prime) == Replay(links, recs[..i], root)
    {
      ReplayStep(links, recs, root, i);
      var o;
      o, prime := Place(t, links, recs[i], prime);
    }
    assert recs[..|recs|] == recs;
  }

  /** The body of `Generate` for one flow: sort, choose the root, place every
      record, then fill in the DOT text, the image, the level and the edges. */
  method BuildFlowTree(links: seq<string>, key: string, recs: seq<Packet>, toDot: DotWriter, render: Renderer)
    returns (ft: FlowTree)
    requires LinksWellFormed(links) && |recs| > 0 && |key| >= 10
    ensures ft.id == key && ft == FlowTreeOf(links, key, recs, toDot, render)
  {
    var sorted := SortBy(recs, NanoKey);
    assert |sorted| == |multiset(sorted)| == |multiset(recs)| == |recs|;
    var first := sorted[0];
    var root := GetConnectedNode(links, first.device);
    var t := Reconstruct(links, sorted, root);
    var protocol := GetType(first.typeCode);
    var dot := toDot(t.nodes, key, protocol + " " + first.dstPort);
    var img := render(DotFileName(key), dot);
    var edges := t.Edges();
    ft := FlowTree(key, protocol, first.srcIp, first.dstIp, first.srcPort, first.dstPort, dot, img,
                   first.capturedAt, t.leafsLevel, edges, false);
  }

  /** The keys of `m` in the order a `range` loop visits them, which the
      language leaves open: each key exactly once. */
  method KeyOrder<V>(m: map<string, V>) returns (keys: seq<string>)
    ensures |keys| == |m|
    ensures forall i :: 0 <= i < |keys| ==> keys[i] in m
    ensures forall i, j :: 0 <= i < j < |keys| ==> keys[i] != keys[j]
    ensures forall k :: k in m ==> k in keys
  {
    var rest := m.Keys;
    keys := [];
    while rest != {}
      invariant rest <= m.Keys && |keys| + |rest| == |m|
      invariant forall i :: 0 <= i < |keys| ==> keys[i] in m && keys[i] !in rest
      invariant forall i, j :: 0 <= i < j < |keys| ==> keys[i] != keys[j]
      invariant forall k :: k in m ==> k in rest || k in keys
      decreases |rest|
    {
      var k :| k in rest;
      keys := keys + [k];
      rest := rest - {k};
    }
  }

  /** `f` applied to each of `xs`, in order. */
  ghost function MapKeys<A, B>(f: A --> B, xs: seq<A>): (r: seq<B>)
    requires forall i :: 0 <= i < |xs| ==> f.requires(xs[i])
    ensures |r| == |xs| && forall i :: 0 <= i < |xs| ==> r[i] == f(xs[i])
  {
    if xs == [] then []
    else
      assert forall i :: 0 <= i < |xs| - 1 ==> xs[..|xs| - 1][i] == xs[i];
      MapKeys(f, xs[..|xs| - 1]) + [f(xs[|xs| - 1])]
  }

  /** Mapping one more element appends its image. */
  lemma MapKeysStep<A, B>(f: A --> B, xs: seq<A>, n: nat)
    requires forall i :: 0 <= i < |xs| ==> f.requires(xs[i])
    requires n < |xs|
    ensures MapKeys(f, xs[..n + 1]) == MapKeys(f, xs[..n]) + [f(xs[n])]
  {
    assert xs[..n + 1][..n] == xs[..n];
  }

  /** The flow tree of one key of `flows`. */
  ghost function TreeOfKey(links: seq<string>, flows: map<string, seq<Packet>>, toDot: DotWriter, render: Renderer)
    : string --> FlowTree
  {
    k requires LinksWellFormed(links) && k in flows && |flows[k]| > 0 && |k| >= 10 =>
      FlowTreeOf(links, k, flows[k], toDot, render)
  }

  /** The flow-tree loop of `Generate`, over the keys in visiting order. */
  method BuildAll(links: seq<string>, flows: map<string, seq<Packet>>, keys: seq<string>, toDot: DotWriter, render: Renderer)
    returns (trees: seq<FlowTree>)
    requires LinksWellFormed(links)
    requires forall i :: 0 <= i < |keys| ==> keys[i] in flows && |flows[keys[i]]| > 0 && |keys[i]| >= 10
    ensures trees == MapKeys(TreeOfKey(links, flows, toDot, render), keys)
  {
    ghost var f := TreeOfKey(links, flows, toDot, render);
    assert forall i :: 0 <= i < |keys| ==> f.requires(keys[i]);
    trees := [];
    for n := 0 to |keys|
      invariant trees == MapKeys(f, keys[..n])
    {
      var ft := BuildFlowTree(links, keys[n], flows[keys[n]], toDot, render);
      assert ft == f(keys[n]);
      MapKeysStep(f, keys, n);
      trees := trees + [ft];
    }
    assert keys[..|keys|] == keys;
  }

  /** `Generate`: one flow tree per flow key, in the order the keys are visited. */
  method Generate(g: Config, flows: map<string, seq<Packet>>, toDot: DotWriter, render: Renderer)
    returns (trees: seq<FlowTree>)
    requires LinksWellFormed(g.topo.links)
    requires forall k :: k in flows ==> |flows[k]| > 0 && |k| >= 10
    ensures |trees| == |flows|
    ensures forall i :: 0 <= i < |trees| ==>
              trees[i].id in flows && trees[i] == FlowTreeOf(g.topo.links, trees[i].id, flows[trees[i].id], toDot, render)
    ensures forall i, j :: 0 <= i < j < |trees| ==> trees[i].id != trees[j].id
    ensures forall k :: k in flows ==> exists i :: 0 <= i < |trees| && trees[i].id == k
  {
    var keys := KeyOrder(flows);
    trees := BuildAll(g.topo.links, flows, keys, toDot, render);
    TreesByKey(g.topo.links, flows, keys, trees, toDot, render);
    TreesCoverKeys(flows, keys, trees);
  }

  /** Tree `i` is the flow tree of key `i`. */
  lemma TreesByKey(links: seq<string>, flows: map<string, seq<Packet>>, keys: seq<string>, trees: seq<FlowTree>,
                   toDot: DotWriter, render: Renderer)
    requires LinksWellFormed(links)
    requires forall i :: 0 <= i < |keys| ==> keys[i] in flows && |flows[keys[i]]| > 0 && |keys[i]| >= 10
    requires trees == MapKeys(TreeOfKey(links, flows, toDot, render), keys)
    ensures |trees| == |keys|
    ensures forall i :: 0 <= i < |trees| ==>
              trees[i].id == keys[i] && trees[i] == FlowTreeOf(links, keys[i], flows[keys[i]], toDot, render)
  {
    forall i | 0 <= i < |trees|
      ensures trees[i] == FlowTreeOf(links, keys[i], flows[keys[i]], toDot, render)
    {
      assert trees[i] == TreeOfKey(links, flows, toDot, render)(keys[i]);
    }
  }

  /** Trees named by all the keys, each once, name every flow once. */
  lemma TreesCoverKeys(flows: map<string, seq<Packet>>, keys: seq<string>, trees: seq<FlowTree>)
    requires |keys| == |flows| && |trees| == |keys|
    requires forall i :: 0 <= i < |trees| ==> trees[i].id == keys[i]
    requires forall k :: k in flows ==> k in keys
    ensures forall k :: k in flows ==> exists i :: 0 <= i < |trees| && trees[i].id == k
  {
    forall k | k in flows
      ensures exists i :: 0 <= i < |trees| && trees[i].id == k
    {
      var i :| 0 <= i < |keys| && keys[i] == k;
      assert trees[i].id == k;
    }
  }
}
