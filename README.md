# dp-analyzer flow-tree reconstruction, modelled in Dafny

dp-analyzer rebuilds the path a network flow took from packet-capture records
taken on independent devices. A static topology resolves each capture
interface to the node on the other end of its link. This project models that
core:

- **The rooted flow tree** of `pkg/tree/tree.go` (module `PkgTree`, class
  `PkgTree.Tree`). It holds nodes with a name, a label, a parent, ordered
  children, a level and ingress/egress stamps. A level index lists, for each
  level, the nodes registered there, in insertion order. `LeafsLevel` is the
  deepest level reached. The tree supports lookup by label within a level,
  pre-order search by label, leaf-to-root DFS paths and the root-to-leaf edge
  lists built from them.
- **Placement** (`Generator.Generate` in `pkg/tree/generator.go`, module
  `Generator`). A flow's records are sorted by nanosecond timestamp. The root
  is named after the node connected to the first record's interface. Each
  record is then placed by a search that starts at `LeafsLevel` and backtracks
  one level at a time. The first level where a rule applies decides:
  - rule A confirms a node's ingress;
  - rule B hangs the connected node under the device's node;
  - rule C hangs the device under its neighbour.

  A record for which no level has a rule is dropped. New nodes are named by
  their label, or by the label with a counter suffix when that label is
  already in the tree.
- **Topology lookup** (`getConnectedNode`). A first-match scan of
  `"node:iface"` link strings that returns `"N/A"` when nothing matches.
- **Fragment merging** (`Generator.Merge`, module `Merging`). Each group's
  flow trees are folded into one edge buffer numbered from 1. Trees of level at
  most 2 are emitted with a verdict on the buffer so far. Deeper trees collapse
  into one representative, with a verdict on the whole buffer. The output is
  ordered newest first.
- **The older tree of `graph/tree.go`** (module `GraphTree`): the same tree
  operations plus the recursive JSON serialiser `ToJSON`.
- **`Packet.GetType`** of `pkg/packets/models.go` (module `Packets`).

Modelling choices:

- Nodes live in an arena, a `seq<Node>` with the root at index 0 (module
  `NodeArena`). Pointers become indices.
- A child's index is always greater than its parent's. `Wf` states this, and
  it makes the parent links a forest.
- A capture instant is `Stamp`: `Unset` is Go's zero `time.Time`, and
  `At(ns)` is an instant in Unix nanoseconds.
- The DOT writer, the image renderer, the DOT merger and the external solver
  are function-typed parameters.
- `sort.Slice` is modelled by `Sorting.SortBy`, one of the orders the
  library may produce.
- A Go `range` over a map is modelled by `Generator.KeyOrder`, which may
  return the keys in any order.

The documented behaviour of the system and its code disagree in three
places; the model follows the code:

- The code compares the parent's **name** with the connected node in rule A
  (`pkg/tree/generator.go:105`), not its label.
- The code sorts with the unstable `sort.Slice` (`pkg/tree/generator.go:69-72`),
  so records with equal timestamps have no guaranteed order.
- A flow of one record whose device id differs from its neighbour attaches
  the device under the root, so the tree has level 2, not 1 (rule C,
  `pkg/tree/generator.go:135-152`; see `Generator.SingleRecord`).

## Model

| member | source | states |
|---|---|---|
| NodeArena.Lookup | pkg/tree/tree.go:87-95 | None exactly when no listed node carries the label; otherwise a listed node that carries it |
| NodeArena.LookupAppend | pkg/tree/tree.go:87-95 | searching a concatenation finds a match in the front part before anything in the back part |
| NodeArena.NoShadowing | pkg/tree/tree.go:87-95 | appending a node to a list never changes what a label already found resolves to: the earliest-inserted match wins |
| NodeArena.ScanByLabel | pkg/tree/tree.go:89-94 | the scan loop returns the first node of the list whose label matches, or None |
| NodeArena.SearchPreorder | pkg/tree/tree.go:255-272 | `findNode` returns the first node in pre-order (node, then each child's subtree in order) that carries the label, or None |
| NodeArena.Reachable | pkg/tree/tree.go:255-272 | when every non-root node has a parent, the pre-order walk from the root visits every node, so a search from the root misses no node |
| NodeArena.PreorderClosed | pkg/tree/tree.go:255-272 | a subtree's pre-order contains the pre-order of every node in it |
| PkgTree.NewNode | pkg/tree/tree.go:26-33 | a new node has no parent, no children, and both time stamps unset |
| PkgTree.Tree.constructor | pkg/tree/tree.go:65-73 | the root alone at level 1, the level index exactly {1: [root]}, `LeafsLevel` 1; the tree is layered |
| PkgTree.Tree.AddChild | pkg/tree/tree.go:46-51 | the child gets the receiver as parent and is appended after the existing children, which are unchanged; no other node, level list or `LeafsLevel` changes |
| PkgTree.Tree.AddNode | pkg/tree/tree.go:76-84 | the node's level becomes its parent's plus one; it is appended to that level's list; no other level list changes; `LeafsLevel` becomes the larger of old and new level, so it never decreases |
| PkgTree.Tree.SetIngress | pkg/tree/generator.go:109 | only the chosen node's ingress stamp changes |
| PkgTree.Tree.FindNodeByLevel | pkg/tree/tree.go:87-95 | the earliest-inserted node of that level carrying the label; None when there is none or the level has no entry |
| PkgTree.Tree.FindNode | pkg/tree/tree.go:251-272 | the first node carrying the label in pre-order from the root, or None |
| PkgTree.Tree.DFS | pkg/tree/tree.go:107-122 | the leaf-to-start paths of the subtree (see `PkgTree.DfsPaths` for what they are) |
| PkgTree.Tree.Edges | pkg/tree/tree.go:197-210 | one edge list per DFS path from the root (see `PkgTree.EdgesChain`) |
| PkgTree.CollectPaths | pkg/tree/tree.go:107-122 | the recursion and the loops of `DFS` compute the leaf paths of the subtree |
| PkgTree.CollectKid | pkg/tree/tree.go:111-117 | one turn of `DFS`'s loop over the children adds the paths of that child, each extended by the current node |
| PkgTree.AppendExtended | pkg/tree/tree.go:113-116 | the inner loop appends each of the child's paths with the current node added at its end |
| PkgTree.ExtendLeafPaths | pkg/tree/tree.go:113-116 | extending each leaf path of a child by its parent gives leaf paths of the parent that start at the same leaves |
| PkgTree.DfsPaths | pkg/tree/tree.go:107-122 | exactly one path per leaf, in left-to-right leaf order; each starts at its leaf and climbs child to parent to the start node |
| PkgTree.ChainLength | pkg/tree/tree.go:107-122 | a child-to-parent chain in a tree whose levels follow parents has as many nodes as the difference of the end levels plus one |
| PkgTree.PathLength | pkg/tree/tree.go:107-122 | in a layered tree a leaf path to the root has as many nodes as the leaf's level |
| PkgTree.EdgesChain | pkg/tree/tree.go:197-210 | one edge list per leaf, each one edge shorter than its path; it starts at the root's label, ends at the leaf's label, each edge's head is the next edge's tail, and every edge joins a parent's label to its child's label |
| PkgTree.LeafPathEdges | pkg/tree/tree.go:202-207 | the edges of a leaf path, listed from its top end down, link head to tail and join labels, not names |
| PkgTree.EdgesPerLevel | pkg/tree/tree.go:197-210 | in a layered tree the edge list of a leaf has one edge fewer than the leaf's level, and at most `LeafsLevel` - 1 edges |
| PkgTree.WfGrow | pkg/tree/tree.go:46-51 | attaching a fresh childless node keeps the parent and child links consistent and acyclic |
| PkgTree.LevelsGrow | pkg/tree/tree.go:76-84 | a fresh child one level below its parent keeps every level one more than its parent's |
| PkgTree.IndexGrow | pkg/tree/tree.go:76-84 | appending the new node to its level's list keeps the level index exact and in range, with no node listed twice |
| PkgTree.DeepestGrow | pkg/tree/tree.go:81-83 | with the new node, the larger of old and new level is the deepest level present |
| PkgTree.LayeredGrow | pkg/tree/tree.go:76-84 | `AddChild` followed by `AddNode` keeps the tree layered: levels follow parents, the index lists exactly each level's nodes, each of them once, `LeafsLevel` is the deepest level |
| PkgTree.LayeredRestamp | pkg/tree/generator.go:109 | changing a node's stamps keeps the tree layered |
| PkgTree.ScenarioWiring | pkg/tree/tree_test.go:7-18 | the test's wiring gives root with child1, child2, child3 and child4 under child3; `child3` is attached to the root before `child4` is attached to it, the reverse of lines 17-18 |
| PkgTree.ScenarioLevels | pkg/tree/tree_test.go:20-23 | the test's `AddNode` calls put child1 to child3 on level 2 in order and child4 on level 3, with `LeafsLevel` 3 |
| PkgTree.FindNodeByLevelScenario | pkg/tree/tree_test.go:25-44 | each of the test's five lookups finds its node at its level |
| Text.UpTo | pkg/tree/generator.go:97 | the text before the first separator, or the whole text when there is none; it holds no separator |
| Text.SecondPiece | pkg/tree/generator.go:334 | the text between the first and the second separator, which holds no separator |
| Text.DecimalRoundTrip | pkg/tree/generator.go:118 | reading back the `%d` rendering of a counter gives the counter |
| Text.NatToStringInjective | pkg/tree/generator.go:118 | distinct counters render to distinct strings |
| Text.SuffixedNamesDiffer | pkg/tree/generator.go:118 | two `label_counter` names with different counters differ, whatever the labels |
| Sorting.Insert | pkg/tree/generator.go:69-72 | inserting into a sorted sequence keeps it sorted and adds exactly that element |
| Sorting.SortBy | pkg/tree/generator.go:69-72 | the result is sorted by the key and is a permutation of the input |
| Sorting.SortedHeadLeast | pkg/tree/generator.go:69-75 | the first record after sorting is one of the records and has the least timestamp of all |
| Packets.GetType | pkg/packets/models.go:23-32 | code 0 and only code 0 is "TCP", code 1 and only code 1 is "UDP", every other code is "Unrecognized" |
| Generator.FirstLink | pkg/tree/generator.go:332-337 | a position at or after the start; when it is inside the list, that link's interface is the device |
| Generator.FirstLinkStep | pkg/tree/generator.go:335-337 | the scan stops at a link with the device's interface and moves past any other |
| Generator.FirstLinkSkips | pkg/tree/generator.go:332-337 | every link the scan passes has an interface different from the device |
| Generator.ConnectedNodeMeans | pkg/tree/generator.go:330-341 | when some link has the device as interface, the result is the node half of the first such link; when none does, it is "N/A" |
| Generator.GetConnectedNode | pkg/tree/generator.go:330-341 | the loop returns the connected node of the device (see `Generator.ConnectedNodeMeans`) |
| Generator.RuleAt | pkg/tree/generator.go:97-152 | any rule found acts on a node listed at that level |
| Generator.UniqueName | pkg/tree/generator.go:114-120 | the bare label when no node of the tree has it, otherwise the label with the counter as suffix, in which case the counter goes up by one |
| Generator.Hang | pkg/tree/generator.go:122-125 | the new node is attached under its parent and registered one level below it, and nothing else changes |
| Generator.HangNamed | pkg/tree/generator.go:114-125 | rules B and C: a node named by the suffix rule is hung under the matched node; the counter advances exactly when the label was taken |
| Generator.LayeredHung | pkg/tree/generator.go:122-125 | hanging a new node keeps the tree layered |
| Generator.EnactHangs | pkg/tree/generator.go:110-152 | rule B hangs a node labelled with the connected node with its egress set; rule C hangs one labelled with the device's own id with its ingress set |
| Generator.TryLevel | pkg/tree/generator.go:97-160 | at one level: the outcome is the rule that holds there and names a node of that level; the tree becomes the outcome applied to it; the counter follows the suffix rule; `Dropped` only when no rule holds |
| Generator.TryOwn | pkg/tree/generator.go:100-133 | own id found at the level: rule A, rule B or nothing, as the rule of the level says |
| Generator.TryAttach | pkg/tree/generator.go:135-160 | own id not found at the level: rule C under the first node labelled with the connected node, or nothing |
| Generator.ConfirmTried | pkg/tree/generator.go:104-109 | setting the ingress of the matched node is rule A's outcome at that level, with the counter unchanged |
| Generator.SpawnTried | pkg/tree/generator.go:110-125 | rule B as applied meets the level's promise |
| Generator.AttachTried | pkg/tree/generator.go:135-152 | rule C as applied meets the level's promise |
| Generator.NothingTried | pkg/tree/generator.go:126-133 | a level without a rule leaves the tree and the counter alone |
| Generator.LayeredEnact | pkg/tree/generator.go:104-152 | whichever rule applies, the tree stays layered |
| Generator.Decide | pkg/tree/generator.go:91-160 | the search's outcome acts on a node of its level, between the root level and the starting level, and names new nodes by the suffix rule |
| Generator.DecideHere | pkg/tree/generator.go:93-160 | the search stops at the first level whose rule the outcome reports |
| Generator.DecideSkips | pkg/tree/generator.go:126-131 | levels without a rule are passed over: starting higher finds what starting lower finds |
| Generator.NoRuleDown | pkg/tree/generator.go:126-131 | no rule at a level and none above means none from that level up |
| Generator.LevelOfIndexed | pkg/tree/tree.go:76-84 | a node listed at a level in the index sits at that level |
| Generator.Placed | pkg/tree/generator.go:87-161 | placing a record keeps the tree layered |
| Generator.Place | pkg/tree/generator.go:91-160 | the backtracking loop yields the search's outcome, starting from `LeafsLevel`, and leaves the tree layered |
| Generator.PresentMeans | pkg/tree/generator.go:115 | a label is present exactly when some node of the tree carries it |
| Generator.DroppedUnchanged | pkg/tree/generator.go:126-133 | a record for which no level from `LeafsLevel` to 1 has a rule is dropped: tree and counter stay as they were |
| Generator.PlacedGrowth | pkg/tree/generator.go:87-161 | placing a record adds at most one node, raises `LeafsLevel` by at most one and never lowers it, and keeps the root |
| Generator.EnactGrowth | pkg/tree/generator.go:104-152 | applying an outcome adds at most one node and raises `LeafsLevel` by at most one |
| Generator.DeepestBound | pkg/tree/tree.go:81-83 | no node is deeper than `LeafsLevel` |
| Generator.Start | pkg/tree/generator.go:76-78 | the tree a flow starts from is layered |
| Generator.StartLookup | pkg/tree/generator.go:76-78 | on the starting tree a label is found exactly when it is the root's |
| Generator.StartRule | pkg/tree/generator.go:97-160 | on the starting tree a device whose own id is not the root attaches under the root; one whose own id is the root matches no rule |
| Generator.StartAttach | pkg/tree/generator.go:135-152 | on the starting tree such a device is attached under the root by its bare own id, at level 2, without advancing the counter |
| Generator.StartGrow | pkg/tree/generator.go:122-125 | hanging a child under the lone root gives a two-node tree |
| Generator.SingleRecord | pkg/tree/generator.go:75-161 | a one-record flow gives the root and the device under it at level 2 when they differ, and the root alone otherwise |
| Generator.ReplayStep | pkg/tree/generator.go:87-161 | replaying one more record places it on the tree replayed so far |
| Generator.ReplayLayered | pkg/tree/generator.go:85-161 | every tree the placement loop builds is layered |
| Generator.ReplayGrowth | pkg/tree/generator.go:85-161 | a flow of n records yields between 1 and n + 1 nodes and levels; the root keeps its name and label and has no parent |
| Generator.CountSuffixed | pkg/tree/generator.go:114-120 | no more suffixed nodes than nodes |
| Generator.NamesDistinct | pkg/tree/generator.go:114-120 | under the naming discipline no two suffixed nodes share a name, nor do two unsuffixed ones |
| Generator.NamesGrow | pkg/tree/generator.go:114-120 | a new node named by its bare label (when no node has it) or by its label with the counter keeps the naming discipline |
| Generator.GrowNamed | pkg/tree/generator.go:114-120 | after the growth every node is still named by its label and its suffix |
| Generator.GrowDistinct | pkg/tree/generator.go:141-147 | after the growth, suffixes still increase with creation order and bare labels are still distinct |
| Generator.NamesHung | pkg/tree/generator.go:114-125 | a node named by the suffix rule keeps the naming discipline |
| Generator.NamesEnact | pkg/tree/generator.go:104-152 | each rule's outcome keeps the naming discipline with the counter it leaves |
| Generator.NamesRestamp | pkg/tree/generator.go:109 | changing stamps keeps the naming discipline |
| Generator.NamesPlaced | pkg/tree/generator.go:87-161 | placing a record keeps the naming discipline |
| Generator.ReplayNames | pkg/tree/generator.go:85-161 | every reconstructed tree follows the discipline: suffixes come from the counter starting at 0, increase in creation order and stay below the counter |
| Generator.FlowTreeOf | pkg/tree/generator.go:61-178 | the flow tree of a key carries that key as its ID |
| Generator.FlowTreeShape | pkg/tree/generator.go:69-85 | the flow tree's `Level` is between 1 and the record count plus one, it has no verdict yet, and its metadata are those of a record with the earliest timestamp |
| Generator.FlowTreeLevel | pkg/tree/generator.go:163-176 | the flow tree's `Level` is the deepest level of a layered tree with at most one node per record plus the root, and its `Edges` are that tree's edge lists |
| Generator.Reconstruct | pkg/tree/generator.go:76-161 | the placement loop builds the replay of all records from the root alone, with the counter at 0 |
| Generator.BuildFlowTree | pkg/tree/generator.go:64-178 | the body of the per-key loop builds that key's flow tree |
| Generator.KeyOrder | pkg/tree/generator.go:64 | each key of the map exactly once, in some order |
| Generator.BuildAll | pkg/tree/generator.go:64-181 | the loop builds one tree per key, in visiting order |
| Generator.TreesByKey | pkg/tree/generator.go:64-181 | tree i is the flow tree of key i |
| Generator.TreesCoverKeys | pkg/tree/generator.go:64-181 | trees named by every key once name every flow once |
| Generator.Generate | pkg/tree/generator.go:61-184 | one flow tree per flow, each the flow tree of its own key, no key twice and every key present |
| Merging.Deep | pkg/tree/generator.go:199 | no more deep members than members |
| Merging.DeepIsDeep | pkg/tree/generator.go:199-207 | every member staged for merging has level above 2 and comes from the group |
| Merging.FileNames | pkg/tree/generator.go:199-205 | the file name of each deep tree, in order |
| Merging.Written | pkg/dot/dot.go:38-52 | after the writes, every deep tree's file exists |
| Merging.ReadBack | pkg/dot/dot.go:69-80 | one text per file name, what that file holds |
| Merging.LastWriter | pkg/tree/generator.go:199-205 | the last deep tree written to a file, or -1 when none is |
| Merging.ReadsLastWrite | pkg/tree/generator.go:199-205 | what the merge reads for a deep tree is the drawing of the last deep tree written under its file name, that tree or a later one |
| Merging.DotsIgnoreDisk | pkg/tree/generator.go:199-205 | the texts read do not depend on what the directory held before the group |
| Merging.OwnDrawings | pkg/tree/generator.go:199-205 | when no two deep trees share a file name, the merge reads each tree's own drawing |
| Merging.SharedFile | pkg/tree/generator.go:199-205 | two deep trees sharing a file name make the merge read one text twice, the later drawing; the earlier is lost |
| Merging.BufferSnoc | pkg/tree/generator.go:208-216 | a new path gets the next key and leaves the other keys alone |
| Merging.BufferNumbering | pkg/tree/generator.go:195-216 | the buffer's keys are exactly 1 to the number of paths, and key i holds the i-th path |
| Merging.FlattenCount | pkg/tree/generator.go:208-216 | the buffer holds as many paths as the members carry in total |
| Merging.FlattenPrefix | pkg/tree/generator.go:197-216 | the paths of the first members are a prefix of all the paths |
| Merging.EarlyVerdictSeesPrefix | pkg/tree/generator.go:217 | the buffer a shallow member is checked against is a part of the final buffer, with the same paths under the same keys |
| Merging.DirectOnlySat | pkg/tree/generator.go:212-219 | one emitted tree per shallow member, each that member with only its verdict changed |
| Merging.GroupShape | pkg/tree/generator.go:197-241 | a group yields its shallow members plus, when some member is deep, one representative: the last deep member with the merge of the texts read back from the deep members' files and the verdict on the whole buffer |
| Merging.SingleShallow | pkg/tree/generator.go:212-219 | a group of one shallow tree yields that tree with the verdict on its own paths |
| Merging.PrefixStep | pkg/tree/generator.go:197-219 | how the buffer, the staged trees and the emitted trees move on by one member |
| Merging.AppendPaths | pkg/tree/generator.go:208-216 | the inner loop puts each path under the next free key |
| Merging.TakeMember | pkg/tree/generator.go:197-220 | one turn of the group loop keeps the pass's invariant: a deep member's drawing is written to its file and the file name is staged |
| Merging.PassGroup | pkg/tree/generator.go:197-220 | after the loop, the buffer, the emitted trees, the staged file names and the directory are those of all members |
| Merging.PassDone | pkg/tree/generator.go:197-220 | the texts read back from the staged files are what the deep members' drawings leave there |
| Merging.GroupEnd | pkg/tree/generator.go:222-241 | with no deep member, the group emits only its shallow members and leaves the directory alone; otherwise it adds the representative and writes the merged drawing under its file name |
| Merging.MergeGroup | pkg/tree/generator.go:192-241 | the group loop yields the group's result, the buffer of all its paths and the directory after the group's writes |
| Merging.MergeGroups | pkg/tree/generator.go:191-242 | the groups' results, group after group, each group seeing the directory the previous one left |
| Merging.Merge | pkg/tree/generator.go:188-249 | the output is a permutation of all groups' results, each group visited once, ordered by capture time, newest first |
| GraphTree.TrimRight | graph/tree.go:106 | a prefix of the text without a trailing comma; only commas were removed |
| GraphTree.JsonAsWritten | graph/tree.go:94-114 | a node's text starts with a brace; a leaf's ends with a comma, an internal node's with a brace |
| GraphTree.KidsAsWritten | graph/tree.go:102-110 | the children's texts start with a brace |
| GraphTree.Piece | graph/tree.go:103-109 | each child's contribution starts with a brace |
| GraphTree.Json | graph/tree.go:94-114 | the corrected serialiser: every node is one object from brace to brace |
| GraphTree.KidsJson | graph/tree.go:102-110 | the corrected children list is empty when no children are left, otherwise text that runs from a brace to a brace |
| GraphTree.MissingComma | graph/tree.go:101-111 | as written, a non-last child with children of its own is glued to its next sibling without a comma |
| GraphTree.GlueInKids | graph/tree.go:102-110 | the glued pair shows up in the children's text |
| GraphTree.SampleGlued | graph/tree.go:94-114 | on a four-node tree the output holds two objects glued together |
| GraphTree.CommaSeparated | graph/tree.go:94-114 | the corrected serialiser never glues two objects together |
| GraphTree.KidsSeparated | graph/tree.go:102-110 | the corrected children list never glues two objects together |
| GraphTree.CorrectionAgrees | graph/tree.go:94-114 | where every child but the last is a leaf, the code's output is the corrected one, plus the comma a leaf ends with |
| GraphTree.KidsAgree | graph/tree.go:102-110 | on such trees the children's texts agree too |
| GraphTree.TrimmedObject | graph/tree.go:105-107 | trimming the commas after an object leaves the object |
| GraphTree.RenderJson | graph/tree.go:94-114 | the recursion of `ToJSON` computes the node's text as written |
| GraphTree.RenderKids | graph/tree.go:101-111 | the loop over the children computes their texts as written |
| GraphTree.RenderKid | graph/tree.go:103-107 | one turn trims the trailing commas of the last child only |
| GraphTree.Tree.constructor | graph/tree.go:49-60 | the root keeps its name, its label becomes its name, it loses its children, and sits alone at level 1 with index {1: [root]} and `LeafsLevel` 1 |
| GraphTree.Tree.AddChild | graph/tree.go:32-37 | the child gets the receiver as parent and is appended after the existing children |
| GraphTree.Tree.AddNode | graph/tree.go:62-73 | level is the parent's plus one, the node is appended to that level's list, and `LeafsLevel` rises only when the new level is deeper |
| GraphTree.Tree.FindNodeByLevel | graph/tree.go:75-83 | the first node of the level with the label in insertion order, or None |
| GraphTree.Tree.FindNode | graph/tree.go:208-228 | the first node with the label in pre-order from the root, or None |
| GraphTree.Tree.ToJSON | graph/tree.go:94-114 | "" for nil, otherwise the node's text as written |
| Naming.UpToSplit | pkg/tree/generator.go:97 | the text before the first separator of `x + c + y` is `x` when `x` has no separator |
| Naming.ClashTopology | pkg/tree/generator.go:330-341 | on the two-link topology, `p2` connects to `h1` and `p2-b` to `h1_0` |
| Naming.SecondDecide | pkg/tree/generator.go:110-120 | the second record hangs a node labelled `h1` and named `h1_0` under `p2`, since the root already carries the label `h1` |
| Naming.ThirdName | pkg/tree/generator.go:141-147 | no node is labelled `h1_0`, so the third record's node gets the bare name `h1_0` |
| Naming.NameClash | pkg/tree/generator.go:110-152 | replaying the three records gives two nodes named `h1_0` with different labels |
| Naming.FreeName | pkg/tree/generator.go:114-120 | the corrected rule: the result names no node; it is the bare label when no node is named so, otherwise the label with the first counter value from the current one whose name is free, every value skipped giving a taken name |
| Naming.FewerNames | pkg/tree/generator.go:114-120 | a set of node names has at most as many names as there are nodes |
| Naming.NextTried | pkg/tree/generator.go:114-120 | a taken candidate is a new name in the set of names tried, so the search for a free name ends |
| Naming.UniqueGrow | pkg/tree/tree.go:165-187 | hanging a node under a name no node carries keeps all names distinct, one DOT node per tree node |

## Left out

- Locking: the `sync.RWMutex` fields and their use in `AddChild` are concurrency control, and the model is single-threaded.
- Logging: every `log.Printf`, and the log-only functions `String` and `PrintNodesAtLevel` of both tree files.
- DOT output: `ToDOT`, `toDOT`, `EdgesFromString` and `nodeLabel` depend on the gographviz library. The DOT text is a value produced by the function parameter `DotWriter`.
- Rendering and merging: `dot.Generate` and `dot.Merge` run external programs. They are the parameters `Renderer` and `DotMerger`. The directory `dot.Write` writes to is a map from file name to text (`Merging.Disk`); `dot.Merge` is given the texts the named files hold. In `Merge`, the drawing `dot.Generate` writes before rendering is tracked too; the files `Generate` writes through `dot.Generate` (pkg/tree/generator.go:168) are not, since `Generate` never reads them back. Write errors, which Go only logs, are not modelled.
- The solver: `smt` and `solve` run a template, a file and a Python/Z3 process. They are the parameter `Solver`, a function from buffer, topology and property text to the solver's output; a verdict is true exactly when that output is "sat".
- `Generator.Generate` requires every flow key to be at least ten characters long. `k[:len(k)-10]` panics otherwise.
- `Merging.GroupReady` carries the same requirement for deep members, whose IDs are sliced the same way.
- `Generator.Generate` requires every flow to have at least one record. `packets[k][0]` panics on an empty flow.
- `Merging.Smt` requires at least one stored property. `g.props[0]` panics when there is none.
- `Generator.LinksWellFormed` requires every link to contain ':'. This is stronger than what Go needs: its scan panics on a link without ':' only when it reaches that link before a match.
- Map iteration order: `range` over the flows and over the groups is in an unspecified order. `Generator.KeyOrder` allows any order, so results are stated per key or as a multiset.
- `Sorting.SortBy`: `sort.Slice` is not stable. The model fixes one admissible order, so the tie orders it does not produce are not covered.
- The in-place rewrite of each record's `CapturedAt` (`pkg/tree/generator.go:89`) is not modelled. Placement reads the nanosecond timestamp directly, and the flow tree's `CapturedAt` comes from the stored capture instant.
- `PkgTree.Tree.AddChild` and `GraphTree.Tree.AddChild`: the child must be a fresh node without children. It becomes the newest node of the arena. Re-attaching an existing node, which Go would allow and which could create a cycle, is not modelled. Neither is attaching a node that already has children, as pkg/tree/tree_test.go:17-18 does; `PkgTree.ScenarioWiring` attaches in the other order.
- `PkgTree.Tree.AddNode` and `GraphTree.Tree.AddNode` require the node to have a parent. Go dereferences `n.Parent` and panics without one.
- `GraphTree.Tree.constructor`: the root record keeps a parent pointer in Go. In the model the root's parent is always None.
- `GraphTree`: the `TimeOfParent` and `TimeOfChildren` fields of graph/tree.go are never read or written there, and are not modelled.
- JSON text: names are inserted into `ToJSON`'s output verbatim, as in the source. `GraphTree.CommaSeparated` assumes names without braces.
- Generator.NamesDistinct: states distinct names only among suffixed nodes and among unsuffixed nodes. A bare name can equal a suffixed one (`Naming.NameClash`). `Generator.Generate` keeps the label-based check of the source; the corrected rule `Naming.FreeName` is stated on its own and not threaded through the replay.
- Persistence, HTTP handlers, the grouping of flow trees into `grouped`, and startup are not part of this model.

## Findings

| source | as written | input that shows it | evidently intended | confidence | as-written member | corrected member |
|---|---|---|---|---|---|---|
| graph/tree.go:101-111 | a leaf's text ends in a comma, but an internal node's text ends in `]}` and nothing adds a comma after it, so a non-last child that has children is glued to its next sibling | root `r` with children `a` and `c`, where `a` has the child `b`: the output contains `]}{"text": {"name": "c"}}` | the children's objects separated by commas, forming a valid JSON array | not executed | GraphTree.MissingComma | GraphTree.Json |
| pkg/tree/generator.go:114-147 | a new node gets its bare label as name when no node carries that LABEL, but the name may already be taken by a node whose name is a suffixed label; `toDOT` keys graph nodes by name (pkg/tree/tree.go:165-187), so the two nodes collapse into one | links `h1:p2` and `h1_0:p2-b`, root `h1`, records on `p2` at 1 and 2, then on `p2-b` at 3: nodes 2 (label `h1`) and 3 (label `h1_0`) are both named `h1_0` | a name no node carries yet | not executed | Naming.NameClash | Naming.FreeName |
