/** Fragment merging (`Generator.Merge` in pkg/tree/generator.go): the flow
    trees of one group are folded into a numbered edge buffer; shallow trees
    (level at most 2) are emitted with a verdict on the buffer so far, deep
    trees collapse into one representative with a verdict on the whole buffer;
    the result is ordered newest first. */
module Merging {
  import opened Sorting
  import opened PkgTree
  import opened Generator

  /** `gvpack` over the DOT files named for `dot.Merge`: it is given the texts
      those files hold when it runs. */
  type DotMerger = seq<string> -> string

  /** The DOT files of the working directory: file name to contents. */
  type Disk = map<string, string>

  /** The edge paths of `members`, member by member, each member's in order. */
  function Flatten(members: seq<FlowTree>): seq<seq<Edge>>
  {
    if members == [] then []
    else Flatten(members[..|members| - 1]) + members[|members| - 1].edges
  }

  /** The solver's edge buffer: key i, counting from 1, holds the i-th path. */
  function Buffer(paths: seq<seq<Edge>>): map<int, seq<Edge>>
  {
    if paths == [] then map[] else Buffer(paths[..|paths| - 1])[|paths| := paths[|paths| - 1]]
  }

  /** `smt(edges)`: the solver's verdict on the buffer with the topology and
      the first stored property. */
  function Smt(g: Config, buffer: map<int, seq<Edge>>, solver: Solver): bool
    requires |g.props| > 0
  {
    solver(buffer, g.topo, g.props[0].text) == "sat"
  }

  /** The members deeper than two levels, in order. */
  function Deep(members: seq<FlowTree>): (r: seq<FlowTree>)
    ensures |r| <= |members|
  {
    if members == [] then []
    else Deep(members[..|members| - 1]) + if members[|members| - 1].level > 2 then [members[|members| - 1]] else []
  }

  /** Every tree has an ID long enough to name its DOT file. */
  ghost predicate Named(trees: seq<FlowTree>)
  {
    forall j :: 0 <= j < |trees| ==> |trees[j].id| >= 10
  }

  /** The file each deep tree's drawing is written to, in order. */
  function FileNames(deep: seq<FlowTree>): (r: seq<string>)
    requires Named(deep)
    ensures |r| == |deep| && forall j :: 0 <= j < |deep| ==> r[j] == DotFileName(deep[j].id)
  {
    if deep == [] then [] else FileNames(deep[..|deep| - 1]) + [DotFileName(deep[|deep| - 1].id)]
  }

  /** The directory after `dot.Write` of each deep tree's drawing in turn: a
      later write to the same file replaces the earlier contents. */
  function Written(disk: Disk, deep: seq<FlowTree>): (r: Disk)
    requires Named(deep)
    ensures forall j :: 0 <= j < |deep| ==> DotFileName(deep[j].id) in r
  {
    if deep == [] then disk
    else Written(disk, deep[..|deep| - 1])[DotFileName(deep[|deep| - 1].id) := deep[|deep| - 1].nodes]
  }

  /** The texts `dot.Merge` hands to `gvpack`: each named file as it stands. */
  function ReadBack(disk: Disk, names: seq<string>): (r: seq<string>)
    requires forall j :: 0 <= j < |names| ==> names[j] in disk
    ensures |r| == |names| && forall j :: 0 <= j < |names| ==> r[j] == disk[names[j]]
  {
    if names == [] then [] else ReadBack(disk, names[..|names| - 1]) + [disk[names[|names| - 1]]]
  }

  /** What the merge of the deep trees reads: their files, after all of them
      were written. */
  function Dots(disk: Disk, deep: seq<FlowTree>): seq<string>
    requires Named(deep)
  {
    ReadBack(Written(disk, deep), FileNames(deep))
  }

  /** What a group's pass emits before the representative: each shallow
      member, with the verdict on the buffer as it stands after that member's
      paths were added. */
  function Direct(g: Config, members: seq<FlowTree>, solver: Solver): seq<FlowTree>
    requires members != [] ==> |g.props| > 0
  {
    if members == [] then []
    else
      var ft := members[|members| - 1];
      Direct(g, members[..|members| - 1], solver)
      + if ft.level > 2 then [] else [ft.(isSat := Smt(g, Buffer(Flatten(members)), solver))]
  }

  /** Deep members need a file name, and any member needs a property. */
  ghost predicate GroupReady(g: Config, members: seq<FlowTree>)
  {
    && (members != [] ==> |g.props| > 0)
    && forall j :: 0 <= j < |members| && members[j].level > 2 ==> |members[j].id| >= 10
  }

  /** The representative of the deep members: the last of them, with the
      merged DOT text, its rendering and the verdict on the whole buffer; none
      when no member is deep. */
  function Representative(g: Config, members: seq<FlowTree>, solver: Solver, mergeDots: DotMerger, render: Renderer)
    : seq<FlowTree>
    requires GroupReady(g, members)
  {
    var deep := Deep(members);
    if deep == [] then []
    else
      DeepIsDeep(members);
      ReadyNamed(g, members);
      var rep := deep[|deep| - 1];
      var dot := mergeDots(Dots(map[], deep));
      [rep.(nodes := dot, nodesImg := render(DotFileName(rep.id), dot), isSat := Smt(g, Buffer(Flatten(members)), solver))]
  }

  /** The directory after a group: each deep member's drawing written in turn,
      then the merged drawing written under the representative's file name
      for rendering. */
  function GroupDisk(g: Config, members: seq<FlowTree>, disk: Disk, mergeDots: DotMerger): Disk
    requires GroupReady(g, members)
  {
    var deep := Deep(members);
    if deep == [] then disk
    else
      ReadyNamed(g, members);
      Written(disk, deep)[DotFileName(deep[|deep| - 1].id) := mergeDots(Dots(map[], deep))]
  }

  /** Everything one group contributes, in the order it is appended. */
  function GroupResult(g: Config, members: seq<FlowTree>, solver: Solver, mergeDots: DotMerger, render: Renderer)
    : seq<FlowTree>
    requires GroupReady(g, members)
  {
    Direct(g, members, solver) + Representative(g, members, solver, mergeDots, render)
  }

  lemma {:induction false} DeepIsDeep(members: seq<FlowTree>)
    ensures forall x :: x in Deep(members) ==> x.level > 2 && x in members
  {
    if members != [] {
      DeepIsDeep(members[..|members| - 1]);
    }
  }

  /** A group's deep members, and those of any prefix of it, can all name a
      file. */
  lemma ReadyNamed(g: Config, members: seq<FlowTree>)
    requires GroupReady(g, members)
    ensures Named(Deep(members))
  {
    DeepIsDeep(members);
    forall j | 0 <= j < |Deep(members)|
      ensures |Deep(members)[j].id| >= 10
    {
      assert Deep(members)[j] in members;
    }
  }

  /** A prefix of a ready group is ready. */
  lemma PrefixReady(g: Config, members: seq<FlowTree>, j: nat)
    requires GroupReady(g, members) && j <= |members|
    ensures GroupReady(g, members[..j]) && Named(Deep(members[..j]))
  {
    assert forall k :: 0 <= k < j ==> members[..j][k] == members[k];
    ReadyNamed(g, members[..j]);
  }

  // ---------------------------------------------------------------------------
  // The DOT files

  /** The index of the last tree written to file `f`, or -1 when none is. */
  function LastWriter(deep: seq<FlowTree>, f: string): (k: int)
    requires Named(deep)
    ensures -1 <= k < |deep|
    ensures k >= 0 ==> DotFileName(deep[k].id) == f
    ensures forall m :: k < m < |deep| ==> DotFileName(deep[m].id) != f
  {
    if deep == [] then -1
    else if DotFileName(deep[|deep| - 1].id) == f then |deep| - 1
    else
      assert forall m :: 0 <= m < |deep| - 1 ==> deep[..|deep| - 1][m] == deep[m];
      LastWriter(deep[..|deep| - 1], f)
  }

  /** After the deep trees are written, the file of tree i holds the drawing of
      the last tree written under the same name, which is tree i or a later
      one. */
  lemma {:induction false} LastWrite(disk: Disk, deep: seq<FlowTree>, i: nat)
    requires Named(deep) && i < |deep|
    ensures var k := LastWriter(deep, DotFileName(deep[i].id));
            i <= k && Written(disk, deep)[DotFileName(deep[i].id)] == deep[k].nodes
  {
    var n := |deep| - 1;
    if DotFileName(deep[n].id) != DotFileName(deep[i].id) {
      var front := deep[..n];
      assert forall m :: 0 <= m < n ==> front[m] == deep[m];
      LastWrite(disk, front, i);
    }
  }

  /** What the merge reads for deep tree i is the drawing of the last deep tree
      sharing its file name, whatever the directory held before. */
  lemma ReadsLastWrite(disk: Disk, deep: seq<FlowTree>, i: nat)
    requires Named(deep) && i < |deep|
    ensures var k := LastWriter(deep, DotFileName(deep[i].id));
            i <= k && Dots(disk, deep)[i] == deep[k].nodes
  {
    LastWrite(disk, deep, i);
  }

  /** The texts read do not depend on what the directory held before. */
  lemma DotsIgnoreDisk(disk: Disk, deep: seq<FlowTree>)
    requires Named(deep)
    ensures Dots(disk, deep) == Dots(map[], deep)
  {
    forall i | 0 <= i < |deep|
      ensures Dots(disk, deep)[i] == Dots(map[], deep)[i]
    {
      ReadsLastWrite(disk, deep, i);
      ReadsLastWrite(map[], deep, i);
    }
  }

  /** When no two deep trees share a file name, the merge reads each tree's
      own drawing. */
  lemma OwnDrawings(disk: Disk, deep: seq<FlowTree>)
    requires Named(deep)
    requires forall i, j :: 0 <= i < j < |deep| ==> DotFileName(deep[i].id) != DotFileName(deep[j].id)
    ensures forall i :: 0 <= i < |deep| ==> Dots(disk, deep)[i] == deep[i].nodes
  {
    forall i | 0 <= i < |deep|
      ensures Dots(disk, deep)[i] == deep[i].nodes
    {
      ReadsLastWrite(disk, deep, i);
    }
  }

  /** Two deep trees whose IDs give the same file name make the merge read the
      same text twice, the drawing of the later of them or of a still later
      tree with that name: the earlier drawing is lost. */
  lemma SharedFile(disk: Disk, deep: seq<FlowTree>, i: nat, j: nat)
    requires Named(deep) && i < j < |deep| && DotFileName(deep[i].id) == DotFileName(deep[j].id)
    ensures Dots(disk, deep)[i] == Dots(disk, deep)[j]
    ensures exists k :: j <= k < |deep| && Dots(disk, deep)[i] == deep[k].nodes
  {
    ReadsLastWrite(disk, deep, i);
    ReadsLastWrite(disk, deep, j);
  }

  // ---------------------------------------------------------------------------
  // Properties of the specification

  /** Appending a path gives it the next key and leaves the other keys alone. */
  lemma BufferSnoc(paths: seq<seq<Edge>>, p: seq<Edge>)
    ensures Buffer(paths + [p]) == Buffer(paths)[|paths| + 1 := p]
  {
    assert (paths + [p])[..|paths|] == paths;
  }

  /** The buffer's keys are exactly 1 to the number of paths, and key i holds
      the i-th path. */
  lemma {:induction false} BufferNumbering(paths: seq<seq<Edge>>)
    ensures forall i :: i in Buffer(paths) <==> 1 <= i <= |paths|
    ensures forall i :: 1 <= i <= |paths| ==> Buffer(paths)[i] == paths[i - 1]
  {
    if paths != [] {
      BufferNumbering(paths[..|paths| - 1]);
    }
  }

  /** The number of keys in a group's buffer is the sum of the members' path
      counts. */
  lemma {:induction false} FlattenCount(members: seq<FlowTree>)
    ensures |Flatten(members)| == PathCount(members)
  {
    if members != [] {
      FlattenCount(members[..|members| - 1]);
    }
  }

  /** The number of edge paths the members carry. */
  function PathCount(members: seq<FlowTree>): nat
  {
    if members == [] then 0 else PathCount(members[..|members| - 1]) + |members[|members| - 1].edges|
  }

  /** The buffer after the first j members is a prefix of the final buffer:
      every key it has, the final buffer has with the same path. */
  lemma {:induction false} EarlyVerdictSeesPrefix(members: seq<FlowTree>, j: nat)
    requires j <= |members|
    ensures var early, all := Buffer(Flatten(members[..j])), Buffer(Flatten(members));
            forall i :: i in early ==> i in all && early[i] == all[i]
    decreases |members| - j
  {
    FlattenPrefix(members, j);
    BufferNumbering(Flatten(members[..j]));
    BufferNumbering(Flatten(members));
  }

  /** The paths of a prefix of the members are a prefix of all the paths. */
  lemma {:induction false} FlattenPrefix(members: seq<FlowTree>, j: nat)
    requires j <= |members|
    ensures |Flatten(members[..j])| <= |Flatten(members)|
    ensures Flatten(members[..j]) == Flatten(members)[..|Flatten(members[..j])|]
    decreases |members| - j
  {
    if j < |members| {
      var front := members[..|members| - 1];
      assert members[..j] == front[..j];
      FlattenPrefix(front, j);
    } else {
      assert members[..j] == members;
    }
  }

  /** Each emitted shallow tree is a shallow member with only its verdict
      changed, and there is one per shallow member. */
  lemma {:induction false} DirectOnlySat(g: Config, members: seq<FlowTree>, solver: Solver)
    requires members != [] ==> |g.props| > 0
    ensures |Direct(g, members, solver)| + |Deep(members)| == |members|
    ensures forall x :: x in Direct(g, members, solver) ==>
              x.level <= 2 && exists j :: 0 <= j < |members| && x == members[j].(isSat := x.isSat)
  {
    if members != [] {
      var front := members[..|members| - 1];
      DirectOnlySat(g, front, solver);
      forall x | x in Direct(g, members, solver)
        ensures x.level <= 2 && exists j :: 0 <= j < |members| && x == members[j].(isSat := x.isSat)
      {
        if x in Direct(g, front, solver) {
          var j :| 0 <= j < |front| && x == front[j].(isSat := x.isSat);
          assert members[j] == front[j];
        } else {
          assert x == members[|members| - 1].(isSat := x.isSat);
        }
      }
    }
  }

  /** A group yields one tree per shallow member plus one when some member is
      deep; the extra tree is the last deep member with the merged drawing and
      the verdict on the whole buffer. */
  lemma GroupShape(g: Config, members: seq<FlowTree>, solver: Solver, mergeDots: DotMerger, render: Renderer)
    requires GroupReady(g, members)
    ensures Named(Deep(members))
    ensures var out, deep := GroupResult(g, members, solver, mergeDots, render), Deep(members);
            && |out| == |members| - |deep| + (if deep == [] then 0 else 1)
            && (deep != [] ==>
                  var rep := out[|out| - 1];
                  && rep.id == deep[|deep| - 1].id && rep.level == deep[|deep| - 1].level
                  && rep.edges == deep[|deep| - 1].edges && rep.capturedAt == deep[|deep| - 1].capturedAt
                  && rep.nodes == mergeDots(Dots(map[], deep))
                  && rep.isSat == Smt(g, Buffer(Flatten(members)), solver))
  {
    DirectOnlySat(g, members, solver);
    ReadyNamed(g, members);
  }

  /** A group of one shallow tree yields that tree with the verdict on its own
      paths. */
  lemma SingleShallow(g: Config, ft: FlowTree, solver: Solver, mergeDots: DotMerger, render: Renderer)
    requires |g.props| > 0 && ft.level <= 2
    ensures GroupResult(g, [ft], solver, mergeDots, render) == [ft.(isSat := Smt(g, Buffer(ft.edges), solver))]
  {
    assert [ft][..0] == [];
    assert Flatten([ft]) == [] + ft.edges == ft.edges;
    assert Deep([ft]) == [];
    assert Direct(g, [ft], solver) == [] + [ft.(isSat := Smt(g, Buffer(ft.edges), solver))];
  }

  // ---------------------------------------------------------------------------
  // The merge

  /** How each specification function moves on by one member. */
  lemma PrefixStep(g: Config, members: seq<FlowTree>, j: nat, solver: Solver)
    requires j < |members| && |g.props| > 0
    ensures Flatten(members[..j + 1]) == Flatten(members[..j]) + members[j].edges
    ensures Deep(members[..j + 1]) == Deep(members[..j]) + if members[j].level > 2 then [members[j]] else []
    ensures Direct(g, members[..j + 1], solver) == Direct(g, members[..j], solver)
              + if members[j].level > 2 then []
                else [members[j].(isSat := Smt(g, Buffer(Flatten(members[..j + 1])), solver))]
  {
    assert members[..j + 1][..j] == members[..j];
  }

  /** The inner loop of `Merge`: each path of `paths` goes into the buffer
      under the next free key. */
  method AppendPaths(edges: map<int, seq<Edge>>, i: int, ghost done: seq<seq<Edge>>, paths: seq<seq<Edge>>)
    returns (edges': map<int, seq<Edge>>, i': int)
    requires edges == Buffer(done) && i == |done| + 1
    ensures edges' == Buffer(done + paths) && i' == |done + paths| + 1
  {
    edges', i' := edges, i;
    assert done + paths[..0] == done;
    for e := 0 to |paths|
      invariant edges' == Buffer(done + paths[..e]) && i' == |done| + e + 1
    {
      BufferSnoc(done + paths[..e], paths[e]);
      assert done + paths[..e + 1] == done + paths[..e] + [paths[e]];
      edges' := edges'[i' := paths[e]];
      i' := i' + 1;
    }
    assert paths[..|paths|] == paths;
  }

  /** The state of a group's pass after its first j members, from directory
      `disk0`: the buffer and the next key, the trees emitted so far, the
      files to merge and the directory they were written to, and the last
      deep member. */
  ghost predicate PassAfter(g: Config, members: seq<FlowTree>, j: nat, solver: Solver, disk0: Disk,
                            out: seq<FlowTree>, files: seq<string>, disk: Disk, merged: FlowTree,
                            edges: map<int, seq<Edge>>, i: int)
    requires j <= |members| && GroupReady(g, members)
  {
    && edges == Buffer(Flatten(members[..j])) && i == |Flatten(members[..j])| + 1
    && out == Direct(g, members[..j], solver)
    && FilesAfter(members, j, disk0, files, disk, merged)
  }

  /** The files part of the pass after j members: the files to merge, the
      directory they were written to from `disk0`, and the last deep member. */
  ghost predicate FilesAfter(members: seq<FlowTree>, j: nat, disk0: Disk,
                             files: seq<string>, disk: Disk, merged: FlowTree)
    requires j <= |members|
  {
    && Named(Deep(members[..j]))
    && files == FileNames(Deep(members[..j])) && disk == Written(disk0, Deep(members[..j]))
    && (Deep(members[..j]) != [] ==> merged == Deep(members[..j])[|Deep(members[..j])| - 1])
  }

  /** A deep member's turn keeps the files part: its drawing is written to its
      file and the file is listed. */
  lemma FilesDeep(members: seq<FlowTree>, j: nat, disk0: Disk,
                  files: seq<string>, disk: Disk, merged: FlowTree)
    requires j < |members| && members[j].level > 2 && |members[j].id| >= 10
    requires FilesAfter(members, j, disk0, files, disk, merged)
    ensures var fname := DotFileName(members[j].id);
            FilesAfter(members, j + 1, disk0, files + [fname], disk[fname := members[j].nodes], members[j])
  {
    assert members[..j + 1][..j] == members[..j];
    assert Deep(members[..j + 1]) == Deep(members[..j]) + [members[j]];
    WriteOne(disk0, Deep(members[..j]), members[j]);
  }

  /** A shallow member's turn leaves the files part as it is. */
  lemma FilesShallow(members: seq<FlowTree>, j: nat, disk0: Disk,
                     files: seq<string>, disk: Disk, merged: FlowTree)
    requires j < |members| && members[j].level <= 2
    requires FilesAfter(members, j, disk0, files, disk, merged)
    ensures FilesAfter(members, j + 1, disk0, files, disk, merged)
  {
    assert members[..j + 1][..j] == members[..j];
    assert Deep(members[..j + 1]) == Deep(members[..j]);
  }

  /** Writing one more deep tree lists its file and puts its drawing there. */
  lemma WriteOne(disk0: Disk, deep: seq<FlowTree>, x: FlowTree)
    requires Named(deep) && |x.id| >= 10
    ensures Named(deep + [x])
    ensures FileNames(deep + [x]) == FileNames(deep) + [DotFileName(x.id)]
    ensures Written(disk0, deep + [x]) == Written(disk0, deep)[DotFileName(x.id) := x.nodes]
  {
    assert (deep + [x])[..|deep|] == deep;
  }

  /** One turn of the group loop: member j goes into the buffer and, when it
      is shallow, out with its verdict; when deep, its drawing is written to
      its file and the file goes onto the merge list. */
  method TakeMember(g: Config, members: seq<FlowTree>, j: nat, solver: Solver, ghost disk0: Disk,
                    out: seq<FlowTree>, files: seq<string>, disk: Disk, merged: FlowTree,
                    edges: map<int, seq<Edge>>, i: int)
    returns (out': seq<FlowTree>, files': seq<string>, disk': Disk, merged': FlowTree,
             edges': map<int, seq<Edge>>, i': int)
    requires j < |members| && GroupReady(g, members)
    requires PassAfter(g, members, j, solver, disk0, out, files, disk, merged, edges, i)
    ensures PassAfter(g, members, j + 1, solver, disk0, out', files', disk', merged', edges', i')
  {
    var ft := members[j];
    PrefixStep(g, members, j, solver);
    out', files', disk', merged' := out, files, disk, merged;
    if ft.level > 2 {
      var fname := DotFileName(ft.id);
      disk' := disk[fname := ft.nodes];
      files' := files + [fname];
      merged' := ft;
      FilesDeep(members, j, disk0, files, disk, merged);
      edges', i' := AppendPaths(edges, i, Flatten(members[..j]), ft.edges);
    } else {
      edges', i' := AppendPaths(edges, i, Flatten(members[..j]), ft.edges);
      out' := out + [ft.(isSat := Smt(g, edges', solver))];
      FilesShallow(members, j, disk0, files, disk, merged);
    }
  }

  /** The loop of one group over its members. */
  method PassGroup(g: Config, members: seq<FlowTree>, solver: Solver, disk: Disk)
    returns (out: seq<FlowTree>, files: seq<string>, disk': Disk, merged: FlowTree,
             edges: map<int, seq<Edge>>, i: int)
    requires GroupReady(g, members)
    ensures PassAfter(g, members, |members|, solver, disk, out, files, disk', merged, edges, i)
  {
    out, files, disk' := [], [], disk;
    merged := FlowTree("", "", "", "", "", "", "", "", 0, 0, [], false);
    i := 1;
    edges := map[];
    for j := 0 to |members|
      invariant PassAfter(g, members, j, solver, disk, out, files, disk', merged, edges, i)
    {
      out, files, disk', merged, edges, i := TakeMember(g, members, j, solver, disk, out, files, disk', merged, edges, i);
    }
  }

  /** The pass after all of a group's members, in terms of the whole group. */
  lemma PassDone(g: Config, members: seq<FlowTree>, solver: Solver, disk0: Disk,
                 out: seq<FlowTree>, files: seq<string>, disk: Disk, merged: FlowTree,
                 edges: map<int, seq<Edge>>, i: int)
    requires GroupReady(g, members)
    requires PassAfter(g, members, |members|, solver, disk0, out, files, disk, merged, edges, i)
    ensures Named(Deep(members))
    ensures edges == Buffer(Flatten(members)) && out == Direct(g, members, solver)
    ensures files == FileNames(Deep(members)) && disk == Written(disk0, Deep(members))
    ensures ReadBack(disk, files) == Dots(map[], Deep(members))
    ensures Deep(members) != [] ==> merged == Deep(members)[|Deep(members)| - 1]
  {
    assert members[..|members|] == members;
    DotsIgnoreDisk(disk0, Deep(members));
  }

  /** A group's result and directory, spelled out for a group with and
      without deep members. */
  lemma GroupEnd(g: Config, members: seq<FlowTree>, solver: Solver, mergeDots: DotMerger, render: Renderer,
                 disk: Disk)
    requires GroupReady(g, members)
    ensures Named(Deep(members))
    ensures Deep(members) == [] ==>
              && GroupResult(g, members, solver, mergeDots, render) == Direct(g, members, solver)
              && GroupDisk(g, members, disk, mergeDots) == disk
    ensures Deep(members) != [] ==>
              var deep := Deep(members);
              var rep, dot := deep[|deep| - 1], mergeDots(Dots(map[], deep));
              && |rep.id| >= 10
              && GroupResult(g, members, solver, mergeDots, render)
                 == Direct(g, members, solver)
                    + [rep.(nodes := dot, nodesImg := render(DotFileName(rep.id), dot),
                            isSat := Smt(g, Buffer(Flatten(members)), solver))]
              && GroupDisk(g, members, disk, mergeDots) == Written(disk, deep)[DotFileName(rep.id) := dot]
  {
    ReadyNamed(g, members);
  }

  /** One group of `Merge`, in directory `disk`: fills the buffer, emits the
      shallow trees as it goes, writes the deep ones' drawings, and emits the
      representative of the deep ones at the end. */
  method MergeGroup(g: Config, members: seq<FlowTree>, solver: Solver, mergeDots: DotMerger, render: Renderer,
                    disk: Disk)
    returns (out: seq<FlowTree>, edges: map<int, seq<Edge>>, disk': Disk)
    requires GroupReady(g, members)
    ensures out == GroupResult(g, members, solver, mergeDots, render)
    ensures edges == Buffer(Flatten(members))
    ensures disk' == GroupDisk(g, members, disk, mergeDots)
  {
    var files, merged, i;
    out, files, disk', merged, edges, i := PassGroup(g, members, solver, disk);
    PassDone(g, members, solver, disk, out, files, disk', merged, edges, i);
    GroupEnd(g, members, solver, mergeDots, render, disk);
    if files != [] {
      var fname := DotFileName(merged.id);
      var dot := mergeDots(ReadBack(disk', files));
      disk' := disk'[fname := dot];
      var img := render(fname, dot);
      merged := merged.(nodes := dot, nodesImg := img, isSat := Smt(g, edges, solver));
      out := out + [merged];
    }
  }

  /** The trees of the groups of `keys`, group after group. */
  function AllGroups(g: Config, grouped: map<string, seq<FlowTree>>, keys: seq<string>, solver: Solver,
                     mergeDots: DotMerger, render: Renderer): seq<FlowTree>
    requires forall i :: 0 <= i < |keys| ==> keys[i] in grouped && GroupReady(g, grouped[keys[i]])
  {
    if keys == [] then []
    else
      var k := keys[|keys| - 1];
      AllGroups(g, grouped, keys[..|keys| - 1], solver, mergeDots, render)
      + GroupResult(g, grouped[k], solver, mergeDots, render)
  }

  /** The loop of `Merge` over the groups, in the order of `keys`. */
  method MergeGroups(g: Config, grouped: map<string, seq<FlowTree>>, keys: seq<string>, solver: Solver,
                     mergeDots: DotMerger, render: Renderer, disk: Disk) returns (all: seq<FlowTree>)
    requires forall i :: 0 <= i < |keys| ==> keys[i] in grouped && GroupReady(g, grouped[keys[i]])
    ensures all == AllGroups(g, grouped, keys, solver, mergeDots, render)
  {
    all := [];
    var dir := disk;
    for n := 0 to |keys|
      invariant all == AllGroups(g, grouped, keys[..n], solver, mergeDots, render)
    {
      var out, _, dir' := MergeGroup(g, grouped[keys[n]], solver, mergeDots, render, dir);
      dir := dir';
      assert keys[..n + 1][..n] == keys[..n] && keys[..n + 1][n] == keys[n];
      all := all + out;
    }
    assert keys[..|keys|] == keys;
  }

  /** Newest first. */
  function NewestFirst(ft: FlowTree): int
  {
    -ft.capturedAt
  }

  /** `Merge`: the groups' results, in the order the groups are visited, then
      ordered by capture time, newest first. */
  method Merge(g: Config, grouped: map<string, seq<FlowTree>>, solver: Solver, mergeDots: DotMerger, render: Renderer,
               disk: Disk)
    returns (trees: seq<FlowTree>, keys: seq<string>)
    requires forall k :: k in grouped ==> GroupReady(g, grouped[k])
    ensures |keys| == |grouped| && (forall k :: k in grouped <==> k in keys)
    ensures forall i, j :: 0 <= i < j < |keys| ==> keys[i] != keys[j]
    ensures multiset(trees) == multiset(AllGroups(g, grouped, keys, solver, mergeDots, render))
    ensures forall i, j :: 0 <= i < j < |trees| ==> trees[i].capturedAt >= trees[j].capturedAt
  {
    keys := KeyOrder(grouped);
    var all := MergeGroups(g, grouped, keys, solver, mergeDots, render, disk);
    trees := SortBy(all, NewestFirst);
    forall i, j | 0 <= i < j < |trees|
      ensures trees[i].capturedAt >= trees[j].capturedAt
    {
      assert NewestFirst(trees[i]) <= NewestFirst(trees[j]);
    }
  }
}
