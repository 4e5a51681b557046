/** The older tree of graph/tree.go: the same arena of labelled nodes and level
    index as pkg/tree, whose `NewTree` relabels the root with its name, plus a
    recursive JSON serialiser. Nodes are `NodeArena.Node` records; this package
    never reads or writes their capture stamps. */
module GraphTree {
  import opened Wrappers
  import opened NodeArena
  import opened PkgTree

  // ---------------------------------------------------------------------------
  // JSON text

  /** The opening of a node's object: `{"text": {"name": "<name>"}`. */
  function Head(name: string): string
  {
    "{\"text\": {\"name\": \"" + name + "\"}"
  }

  /** What follows the head of an internal node, before its children. */
  const Opening: string := ", \"children\" : ["

  /** `strings.TrimRight(s, cutset)` for a one-character cutset: drops every
      trailing `c`. */
  function TrimRight(s: string, c: char): (r: string)
    ensures |r| <= |s| && r == s[..|r|]
    ensures r == [] || r[|r| - 1] != c
    ensures forall i :: |r| <= i < |s| ==> s[i] == c
  {
    if s != [] && s[|s| - 1] == c then TrimRight(s[..|s| - 1], c) else s
  }

  /** `ToJSON` as written: a leaf is its head, `}` and a comma; an internal
      node is its head, the opening, its children's texts and `]}`. */
  function JsonAsWritten(nodes: seq<Node>, n: nat): (s: string)
    requires Wf(nodes) && n < |nodes|
    ensures |s| >= 2 && s[0] == '{'
    ensures if nodes[n].children == [] then s[|s| - 1] == ',' else s[|s| - 1] == '}'
    decreases |nodes| - n, 1
  {
    if nodes[n].children == [] then Head(nodes[n].name) + "},"
    else Head(nodes[n].name) + Opening + KidsAsWritten(nodes, n, 0) + "]}"
  }

  /** The texts of children `i..` of `p` as `ToJSON` concatenates them: each
      child's text unchanged, except that the last one loses its trailing
      commas. */
  function KidsAsWritten(nodes: seq<Node>, p: nat, i: nat): (s: string)
    requires Wf(nodes) && p < |nodes| && i <= |nodes[p].children|
    ensures i < |nodes[p].children| ==> |s| >= 1 && s[0] == '{'
    decreases |nodes| - p, 0, |nodes[p].children| - i, 1
  {
    if i == |nodes[p].children| then "" else Piece(nodes, p, i) + KidsAsWritten(nodes, p, i + 1)
  }

  /** What `ToJSON` appends for child `i` of `p`. */
  function Piece(nodes: seq<Node>, p: nat, i: nat): (s: string)
    requires Wf(nodes) && p < |nodes| && i < |nodes[p].children|
    ensures |s| >= 1 && s[0] == '{'
    decreases |nodes| - p, 0, |nodes[p].children| - i, 0
  {
    var aux := JsonAsWritten(nodes, nodes[p].children[i]);
    if i == |nodes[p].children| - 1 then TrimRight(aux, ',') else aux
  }

  /** The serialiser as evidently intended: every node is one object, and the
      objects of siblings are separated by commas. */
  function Json(nodes: seq<Node>, n: nat): (s: string)
    requires Wf(nodes) && n < |nodes|
    ensures |s| >= 2 && s[0] == '{' && s[|s| - 1] == '}'
    decreases |nodes| - n, 1
  {
    if nodes[n].children == [] then Head(nodes[n].name) + "}"
    else Head(nodes[n].name) + Opening + KidsJson(nodes, n, 0) + "]}"
  }

  /** The objects of children `i..` of `p`, separated by commas. */
  function KidsJson(nodes: seq<Node>, p: nat, i: nat): (s: string)
    requires Wf(nodes) && p < |nodes| && i <= |nodes[p].children|
    ensures i < |nodes[p].children| ==> |s| >= 2 && s[0] == '{' && s[|s| - 1] == '}'
    ensures i == |nodes[p].children| ==> s == ""
    decreases |nodes| - p, 0, |nodes[p].children| - i
  {
    if i == |nodes[p].children| then ""
    else if i == |nodes[p].children| - 1 then Json(nodes, nodes[p].children[i])
    else Json(nodes, nodes[p].children[i]) + "," + KidsJson(nodes, p, i + 1)
  }

  /** Two objects glued together: a `}` immediately followed by a `{`. */
  ghost predicate Glued(s: string)
  {
    exists i :: 0 <= i < |s| - 1 && s[i] == '}' && s[i + 1] == '{'
  }

  /** No brace in a name, so that every brace of the output is structure. */
  ghost predicate BraceFree(nodes: seq<Node>)
  {
    forall n :: 0 <= n < |nodes| ==> '{' !in nodes[n].name && '}' !in nodes[n].name
  }

  // ---------------------------------------------------------------------------
  // Glue in concatenations

  lemma GlueInside(a: string, x: string, b: string)
    requires Glued(x)
    ensures Glued(a + x + b)
  {
    var i :| 0 <= i < |x| - 1 && x[i] == '}' && x[i + 1] == '{';
    var s := a + x + b;
    assert s[|a| + i] == '}' && s[|a| + i + 1] == '{';
  }

  lemma GlueAtSeam(a: string, b: string)
    requires a != [] && b != [] && a[|a| - 1] == '}' && b[0] == '{'
    ensures Glued(a + b)
  {
    assert (a + b)[|a| - 1] == '}' && (a + b)[|a|] == '{';
  }

  /** Joining texts without glue gives no glue unless the seam makes some. */
  lemma NoGlueJoin(a: string, b: string)
    requires !Glued(a) && !Glued(b)
    requires a == [] || b == [] || a[|a| - 1] != '}' || b[0] != '{'
    ensures !Glued(a + b)
  {
    var s := a + b;
    forall i | 0 <= i < |s| - 1
      ensures !(s[i] == '}' && s[i + 1] == '{')
    {
      if i + 1 < |a| {
        assert s[i] == a[i] && s[i + 1] == a[i + 1];
      } else if i >= |a| {
        assert s[i] == b[i - |a|] && s[i + 1] == b[i + 1 - |a|];
      }
    }
  }

  lemma HeadNoGlue(name: string)
    requires '{' !in name && '}' !in name
    ensures !Glued(Head(name)) && Head(name)[|Head(name)| - 1] == '}'
  {
    var s := Head(name);
    var front := "{\"text\": {\"name\": \"";
    assert s == front + name + "\"}";
    forall i | 0 <= i < |s| - 1
      ensures !(s[i] == '}' && s[i + 1] == '{')
    {
      if i < |front| {
        assert s[i] == front[i];
      } else if i < |front| + |name| {
        assert s[i] == name[i - |front|];
      } else {
        assert s[i + 1] != '{';
      }
    }
  }

  // ---------------------------------------------------------------------------
  // The finding and its correction

  /** As written, a child with children of its own that is not the last child
      is glued to the next sibling: its text ends in `]}` and no comma is put
      after it. */
  lemma {:induction false} MissingComma(nodes: seq<Node>, p: nat, k: nat)
    requires Wf(nodes) && p < |nodes| && k + 1 < |nodes[p].children|
    requires nodes[nodes[p].children[k]].children != []
    ensures Glued(JsonAsWritten(nodes, p))
  {
    GlueInKids(nodes, p, 0, k);
    GlueInside(Head(nodes[p].name) + Opening, KidsAsWritten(nodes, p, 0), "]}");
  }

  lemma {:induction false} GlueInKids(nodes: seq<Node>, p: nat, i: nat, k: nat)
    requires Wf(nodes) && p < |nodes| && i <= k && k + 1 < |nodes[p].children|
    requires nodes[nodes[p].children[k]].children != []
    ensures Glued(KidsAsWritten(nodes, p, i))
    decreases k - i
  {
    var aux := JsonAsWritten(nodes, nodes[p].children[i]);
    if i < k {
      GlueInKids(nodes, p, i + 1, k);
      GlueInside(aux, KidsAsWritten(nodes, p, i + 1), "");
      assert aux + KidsAsWritten(nodes, p, i + 1) + "" == KidsAsWritten(nodes, p, i);
    } else {
      GlueAtSeam(aux, KidsAsWritten(nodes, p, i + 1));
    }
  }

  /** The smallest tree that shows it: root `r` with children `a` (which has
      the child `b`) and `c`. */
  const Sample: seq<Node> := [
    Node("r", "r", None, [1, 3], 1, Unset, Unset),
    Node("a", "a", Some(0), [2], 2, Unset, Unset),
    Node("b", "b", Some(1), [], 3, Unset, Unset),
    Node("c", "c", Some(0), [], 2, Unset, Unset)]

  lemma SampleGlued()
    ensures Wf(Sample) && Glued(JsonAsWritten(Sample, 0))
  {
    assert Wf(Sample);
    MissingComma(Sample, 0, 0);
  }

  /** The intended serialiser never glues two objects together. */
  lemma {:induction false} CommaSeparated(nodes: seq<Node>, n: nat)
    requires Wf(nodes) && n < |nodes| && BraceFree(nodes)
    ensures !Glued(Json(nodes, n))
    decreases |nodes| - n, 1
  {
    var head := Head(nodes[n].name);
    HeadNoGlue(nodes[n].name);
    if nodes[n].children == [] {
      NoGlueJoin(head, "}");
    } else {
      KidsSeparated(nodes, n, 0);
      var kids := KidsJson(nodes, n, 0);
      NoGlueJoin(head, Opening);
      NoGlueJoin(head + Opening, kids);
      NoGlueJoin(head + Opening + kids, "]}");
    }
  }

  lemma {:induction false} KidsSeparated(nodes: seq<Node>, p: nat, i: nat)
    requires Wf(nodes) && p < |nodes| && i <= |nodes[p].children| && BraceFree(nodes)
    ensures !Glued(KidsJson(nodes, p, i))
    decreases |nodes| - p, 0, |nodes[p].children| - i
  {
    if i < |nodes[p].children| {
      var c := nodes[p].children[i];
      CommaSeparated(nodes, c);
      if i < |nodes[p].children| - 1 {
        KidsSeparated(nodes, p, i + 1);
        NoGlueJoin(Json(nodes, c), ",");
        NoGlueJoin(Json(nodes, c) + ",", KidsJson(nodes, p, i + 1));
      }
    }
  }

  /** Every child but the last is a leaf: the trees on which the code's
      output is right. */
  ghost predicate OnlyLastInternal(nodes: seq<Node>)
  {
    forall p, k :: 0 <= p < |nodes| && 0 <= k < |nodes[p].children| - 1 && nodes[p].children[k] < |nodes| ==>
      nodes[nodes[p].children[k]].children == []
  }

  /** The correction changes nothing else: where no earlier sibling has
      children, the code's text is the intended one, plus the comma a leaf
      always ends with. */
  lemma {:induction false} CorrectionAgrees(nodes: seq<Node>, n: nat)
    requires Wf(nodes) && n < |nodes| && OnlyLastInternal(nodes)
    ensures JsonAsWritten(nodes, n) == Json(nodes, n) + if nodes[n].children == [] then "," else ""
    decreases |nodes| - n, 1
  {
    if nodes[n].children != [] {
      KidsAgree(nodes, n, 0);
    }
  }

  lemma {:induction false} KidsAgree(nodes: seq<Node>, p: nat, i: nat)
    requires Wf(nodes) && p < |nodes| && i <= |nodes[p].children| && OnlyLastInternal(nodes)
    ensures KidsAsWritten(nodes, p, i) == KidsJson(nodes, p, i)
    decreases |nodes| - p, 0, |nodes[p].children| - i
  {
    if i < |nodes[p].children| {
      var c := nodes[p].children[i];
      CorrectionAgrees(nodes, c);
      KidsAgree(nodes, p, i + 1);
      var text := Json(nodes, c);
      if i == |nodes[p].children| - 1 {
        if nodes[c].children == [] {
          assert (text + ",")[..|text|] == text;
        }
        TrimmedObject(text, if nodes[c].children == [] then "," else "");
      } else {
        assert JsonAsWritten(nodes, c) == text + ",";
      }
    }
  }

  /** Trimming the commas after an object leaves the object. */
  lemma TrimmedObject(text: string, commas: string)
    requires text != [] && text[|text| - 1] == '}' && (commas == "" || commas == ",")
    ensures TrimRight(text + commas, ',') == text
  {
    if commas == "," {
      assert (text + commas)[..|text|] == text;
    } else {
      assert text + commas == text;
    }
  }

  // ---------------------------------------------------------------------------
  // The serialiser's loop

  /** `ToJSON` on a node: a leaf's text, or the head, the children's texts
      and the closing brackets. */
  method RenderJson(nodes: seq<Node>, n: nat) returns (s: string)
    requires Wf(nodes) && n < |nodes|
    ensures s == JsonAsWritten(nodes, n)
    decreases |nodes| - n, 2
  {
    if |nodes[n].children| == 0 {
      return Head(nodes[n].name) + "},";
    }
    var body := RenderKids(nodes, n);
    s := Head(nodes[n].name) + Opening + body + "]}";
  }

  /** The loop of `ToJSON`: each child's text in turn. */
  method RenderKids(nodes: seq<Node>, n: nat) returns (body: string)
    requires Wf(nodes) && n < |nodes|
    ensures body == KidsAsWritten(nodes, n, 0)
    decreases |nodes| - n, 1
  {
    body := "";
    for i := 0 to |nodes[n].children|
      invariant body + KidsAsWritten(nodes, n, i) == KidsAsWritten(nodes, n, 0)
    {
      var aux := RenderKid(nodes, n, i);
      ConcatAssoc(body, aux, KidsAsWritten(nodes, n, i + 1));
      body := body + aux;
    }
  }

  /** One turn of that loop: the child's text, with its trailing commas
      trimmed when it is the last child. */
  method RenderKid(nodes: seq<Node>, n: nat, i: nat) returns (aux: string)
    requires Wf(nodes) && n < |nodes| && i < |nodes[n].children|
    ensures aux == Piece(nodes, n, i)
    decreases |nodes| - n, 0
  {
    aux := RenderJson(nodes, nodes[n].children[i]);
    if i == |nodes[n].children| - 1 {
      aux := TrimRight(aux, ',');
    }
  }

  // ---------------------------------------------------------------------------
  // The tree

  class Tree {
    var nodes: seq<Node>
    var byLevel: map<int, seq<nat>>
    var leafsLevel: int

    ghost predicate Valid()
      reads this
    {
      && |nodes| >= 1 && nodes[0].parent.None? && nodes[0].level == 1
      && Wf(nodes) && IndexInRange(nodes, byLevel) && leafsLevel >= 1
    }

    /** `NewTree(root)`: the root keeps its name, takes its name as label as
        well, loses its children, and sits alone at level 1. */
    constructor (root: Node)
      ensures Valid()
      ensures nodes == [root.(tag := root.name, parent := None, children := [], level := 1)]
      ensures nodes[0].tag == nodes[0].name == root.name
      ensures byLevel == map[1 := [0]] && leafsLevel == 1
      ensures Layered(nodes, byLevel, leafsLevel)
    {
      nodes := [root.(tag := root.name, parent := None, children := [], level := 1)];
      byLevel := map[1 := [0]];
      leafsLevel := 1;
    }

    /** `p.AddChild(c)` for a fresh node `c`: `c` gets `p` as its parent and
        comes after `p`'s existing children. */
    method AddChild(p: nat, c: Node) returns (id: nat)
      requires Valid() && p < |nodes| && c.children == []
      modifies this
      ensures Valid()
      ensures id == |old(nodes)| && nodes == Grow(old(nodes), p, c.(parent := Some(p)))
      ensures nodes[p].children == old(nodes)[p].children + [id] && nodes[id].parent == Some(p)
      ensures byLevel == old(byLevel) && leafsLevel == old(leafsLevel)
    {
      WfGrow(nodes, p, c.(parent := Some(p)));
      id := |nodes|;
      nodes := nodes[p := nodes[p].(children := nodes[p].children + [id])] + [c.(parent := Some(p))];
    }

    /** `AddNode`: one level below the parent, last in that level's list;
        `LeafsLevel` rises only when the new level is deeper. */
    method AddNode(n: nat)
      requires Valid() && n < |nodes| && nodes[n].parent.Some?
      modifies this
      ensures Valid()
      ensures var l := old(nodes)[old(nodes)[n].parent.value].level + 1;
              && nodes == old(nodes)[n := old(nodes)[n].(level := l)]
              && byLevel == old(byLevel)[l := AtLevel(old(byLevel), l) + [n]]
              && leafsLevel == (if l > old(leafsLevel) then l else old(leafsLevel))
    {
      var l := nodes[nodes[n].parent.value].level + 1;
      nodes := nodes[n := nodes[n].(level := l)];
      byLevel := byLevel[l := AtLevel(byLevel, l) + [n]];
      if l > leafsLevel {
        leafsLevel := l;
      }
    }

    /** `FindNodeByLevel`: the earliest-inserted node of the level with the
        label, or None. */
    method FindNodeByLevel(tag: string, level: int) returns (r: Option<nat>)
      requires Valid()
      ensures r == Lookup(nodes, AtLevel(byLevel, level), tag)
    {
      r := ScanByLabel(nodes, AtLevel(byLevel, level), tag);
    }

    /** `FindNode`: the first node with the label in pre-order from the root. */
    method FindNode(tag: string) returns (r: Option<nat>)
      requires Valid()
      ensures r == Lookup(nodes, Preorder(nodes, 0), tag)
    {
      r := SearchPreorder(nodes, 0, tag);
    }

    /** `ToJSON`: the empty string for nil, otherwise the node's text. */
    method ToJSON(n: Option<nat>) returns (s: string)
      requires Valid() && (n.Some? ==> n.value < |nodes|)
      ensures s == if n.None? then "" else JsonAsWritten(nodes, n.value)
    {
      if n.None? {
        return "";
      }
      s := RenderJson(nodes, n.value);
    }
  }
}
