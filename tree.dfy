/** The bill-of-materials tree of a component (server/controllers/tree.py).
    The tree is unfolded from the relationship table; a name already on the
    path from the root is cut off to stop cycles. The visited set is copied
    for every child, so a component shared by two branches is expanded in
    both. */
module Tree {
  import opened Wrappers
  import opened Seqs
  import opened Store

  /** `amount` is 1 for an expanded node and 0 for a cut one, until the parent
      overwrites it with the amount on the edge leading to it. */
  datatype TreeNode = TreeNode(name: string, amount: real, children: seq<TreeNode>)

  /** Every name mentioned by the relationship table. */
  function Universe(rels: seq<Relationship>): set<string> {
    (set e | e in rels :: e.top) + (set e | e in rels :: e.sub)
  }

  lemma UniverseShrinks(rels: seq<Relationship>, name: string, visited: set<string>)
    requires name in Universe(rels) && name !in visited
    ensures |Universe(rels) - (visited + {name})| < |Universe(rels) - visited|
  {
    var b := Universe(rels) - visited;
    assert name in b;
    assert Universe(rels) - (visited + {name}) == b - {name};
  }

  /** `build_tree_recursive`: the node for `name` with the path `visited`
      already taken. */
  function BuildTree(rels: seq<Relationship>, name: string, visited: set<string>): (t: TreeNode)
    ensures t.name == name
    decreases |Universe(rels) - visited|
  {
    if name in visited then TreeNode(name, 0.0, [])
    else
      var outs := Outgoing(rels, name);
      if outs == [] then TreeNode(name, 1.0, [])
      else
        assert outs[0] in rels;
        UniverseShrinks(rels, name, visited);
        TreeNode(name, 1.0, seq(|outs|, i requires 0 <= i < |outs| =>
          BuildTree(rels, outs[i].sub, visited + {name}).(amount := outs[i].amount)))
  }

  /** A node whose name is on its path has no children; every other node has
      one child per outgoing relationship, in table order, carrying that
      relationship's sub-component and amount; and this holds at every depth,
      with the path growing by one name per level. */
  ghost predicate CutExactlyOnPath(rels: seq<Relationship>, t: TreeNode, path: set<string>)
    decreases t
  {
    (t.name in path ==> t.children == [])
    && (t.name !in path ==>
          var outs := Outgoing(rels, t.name);
          |t.children| == |outs|
          && (forall i :: 0 <= i < |outs| ==>
                t.children[i].name == outs[i].sub && t.children[i].amount == outs[i].amount))
    && (forall c :: c in t.children ==> CutExactlyOnPath(rels, c, path + {t.name}))
  }

  lemma {:induction false} BuildTreeCutsExactlyOnPath(rels: seq<Relationship>, name: string, visited: set<string>)
    ensures CutExactlyOnPath(rels, BuildTree(rels, name, visited), visited)
    decreases |Universe(rels) - visited|
  {
    var t := BuildTree(rels, name, visited);
    if name !in visited {
      var outs := Outgoing(rels, name);
      if outs != [] {
        assert outs[0] in rels;
        UniverseShrinks(rels, name, visited);
        forall c | c in t.children ensures CutExactlyOnPath(rels, c, visited + {name}) {
          var i :| 0 <= i < |outs| && c == t.children[i];
          BuildTreeCutsExactlyOnPath(rels, outs[i].sub, visited + {name});
        }
      }
    }
  }

  /** A child whose component is already on the path is a leaf that still
      carries the amount of the edge leading to it: the 0 placed on the cut
      node is overwritten by the parent. */
  lemma CutChildCarriesEdgeAmount(rels: seq<Relationship>, name: string, visited: set<string>, i: int)
    requires name !in visited
    requires 0 <= i < |Outgoing(rels, name)|
    requires Outgoing(rels, name)[i].sub in visited + {name}
    ensures var c := BuildTree(rels, name, visited).children[i];
      c.children == [] && c.amount == Outgoing(rels, name)[i].amount
  {
  }

  function Depth(t: TreeNode): (d: nat)
    ensures d >= 1
    ensures forall c :: c in t.children ==> d > Depth(c)
    decreases t
  {
    1 + MaxDepth(t.children)
  }

  function MaxDepth(ts: seq<TreeNode>): (d: nat)
    ensures forall c :: c in ts ==> d >= Depth(c)
    decreases ts
  {
    if ts == [] then 0
    else
      var a := Depth(ts[0]);
      var b := MaxDepth(ts[1..]);
      assert forall c :: c in ts ==> c == ts[0] || c in ts[1..];
      if a >= b then a else b
  }

  lemma {:induction false} MaxDepthBound(ts: seq<TreeNode>, k: nat)
    requires forall c :: c in ts ==> Depth(c) <= k
    ensures MaxDepth(ts) <= k
    decreases ts
  {
    if ts != [] {
      assert forall c :: c in ts[1..] ==> c in ts;
      MaxDepthBound(ts[1..], k);
    }
  }

  /** The cycle cut bounds the depth: no path repeats a name, so a tree built
      from an empty path is no deeper than the number of names in the table
      plus one. */
  lemma {:induction false} BuildTreeDepth(rels: seq<Relationship>, name: string, visited: set<string>)
    ensures Depth(BuildTree(rels, name, visited)) <= |Universe(rels) - visited| + 1
    decreases |Universe(rels) - visited|, 1
  {
    var t := BuildTree(rels, name, visited);
    if name in visited {
      assert MaxDepth(t.children) == 0;
    } else {
      var outs := Outgoing(rels, name);
      if outs == [] {
        assert MaxDepth(t.children) == 0;
      } else {
        var k := |Universe(rels) - (visited + {name})| + 1;
        assert outs[0] in rels;
        UniverseShrinks(rels, name, visited);
        forall c | c in t.children ensures Depth(c) <= k {
          var i :| 0 <= i < |outs| && c == t.children[i];
          ChildDepth(rels, name, visited, i);
        }
        MaxDepthBound(t.children, k);
      }
    }
  }

  lemma {:induction false} ChildDepth(rels: seq<Relationship>, name: string, visited: set<string>, i: int)
    requires name !in visited && 0 <= i < |Outgoing(rels, name)|
    ensures Depth(BuildTree(rels, name, visited).children[i]) <= |Universe(rels) - (visited + {name})| + 1
    decreases |Universe(rels) - visited|, 0
  {
    var outs := Outgoing(rels, name);
    assert outs[i] in rels;
    UniverseShrinks(rels, name, visited);
    var sub := BuildTree(rels, outs[i].sub, visited + {name});
    BuildTreeDepth(rels, outs[i].sub, visited + {name});
    assert BuildTree(rels, name, visited).children[i] == sub.(amount := outs[i].amount);
    assert Depth(sub.(amount := outs[i].amount)) == 1 + MaxDepth(sub.children);
  }

  /** `get_tree`: 400 when the top component does not exist (the 404 raised
      inside the `try` is turned into a 400 by the catch-all handler),
      otherwise the tree unfolded from an empty path. */
  function GetTree(components: map<string, Component>, rels: seq<Relationship>, topName: string): (r: Result<TreeNode>)
    ensures r.Err? <==> topName !in components
    ensures r.Err? ==> r.status == 400
    ensures r.Ok? ==> r.value.name == topName && r.value.amount == 1.0
    ensures r.Ok? ==> CutExactlyOnPath(rels, r.value, {})
  {
    if topName !in components then Err(400)
    else
      BuildTreeCutsExactlyOnPath(rels, topName, {});
      Ok(BuildTree(rels, topName, {}))
  }
}
