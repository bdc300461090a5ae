/** The flow-graph view of a bill-of-materials tree (server/controllers/graph.py).
    Every tree occurrence is named by its '/'-joined path of component names
    from the root; a path becomes a node the first time it is met, and every
    parent-child occurrence becomes an edge labelled with the edge amount. */
module Graph {
  import opened Wrappers
  import opened Seqs
  import opened Store
  import opened Tree

  /** A node; `name` is shown as its label. */
  datatype GraphNode = GraphNode(id: string, name: string)

  /** An edge; `amount` is shown as its label. */
  datatype GraphEdge = GraphEdge(id: string, source: string, target: string, amount: real)

  datatype GraphData = GraphData(nodes: seq<GraphNode>, edges: seq<GraphEdge>)

  /** The id of a node named `name` below the node with id `path`; the root
      is reached with the empty path. */
  function PathOf(name: string, path: string): string {
    if path == "" then name else path + "/" + name
  }

  /** The edge from the node with id `p` to its child `c`. */
  function EdgeTo(p: string, c: TreeNode): (e: GraphEdge)
    ensures e.source == p && e.target == p + "/" + c.name && e.amount == c.amount
    ensures e.id == e.source + "_" + e.target
  {
    GraphEdge(p + "_" + (p + "/" + c.name), p, p + "/" + c.name, c.amount)
  }

  /** The nodes of the tree in the order the traversal meets them, one per
      occurrence, repeats included. */
  function NodeList(t: TreeNode, path: string): (r: seq<GraphNode>)
    ensures |r| >= 1 && r[0] == GraphNode(PathOf(t.name, path), t.name)
    decreases t
  {
    [GraphNode(PathOf(t.name, path), t.name)] + ChildNodes(t.children, PathOf(t.name, path))
  }

  function ChildNodes(cs: seq<TreeNode>, p: string): seq<GraphNode>
    decreases cs
  {
    if cs == [] then [] else ChildNodes(cs[..|cs| - 1], p) + NodeList(cs[|cs| - 1], p)
  }

  /** The edges the traversal appends, in order: for each child, its edge and
      then the edges below it. */
  function EdgeList(t: TreeNode, path: string): seq<GraphEdge>
    decreases t
  {
    ChildEdges(t.children, PathOf(t.name, path))
  }

  function ChildEdges(cs: seq<TreeNode>, p: string): seq<GraphEdge>
    decreases cs
  {
    if cs == [] then []
    else ChildEdges(cs[..|cs| - 1], p) + [EdgeTo(p, cs[|cs| - 1])] + EdgeList(cs[|cs| - 1], p)
  }

  /** The ids of a list of nodes. */
  function Ids(ns: seq<GraphNode>): set<string>
    decreases |ns|
  {
    if ns == [] then {} else {ns[0].id} + Ids(ns[1..])
  }

  /** The nodes of `ns` whose id was not met before, keeping the first of
      each id, in order. */
  function Fresh(ns: seq<GraphNode>, seen: set<string>): seq<GraphNode>
    decreases |ns|
  {
    if ns == [] then []
    else if ns[0].id in seen then Fresh(ns[1..], seen)
    else [ns[0]] + Fresh(ns[1..], seen + {ns[0].id})
  }

  /** Fresh keeps one node per id not in `seen`, each taken from `ns`, and
      covers every id of `ns`. */
  lemma {:induction false} FreshProperties(ns: seq<GraphNode>, seen: set<string>)
    ensures var r := Fresh(ns, seen);
      && (forall i, j :: 0 <= i < j < |r| ==> r[i].id != r[j].id)
      && (forall n :: n in r ==> n in ns && n.id !in seen)
      && Ids(r) + seen == Ids(ns) + seen
    decreases |ns|
  {
    if ns != [] {
      var seen' := seen + {ns[0].id};
      FreshProperties(ns[1..], seen');
      var rest := Fresh(ns[1..], seen');
      if ns[0].id !in seen {
        var r := Fresh(ns, seen);
        assert r == [ns[0]] + rest;
        assert r[1..] == rest;
        forall i, j | 0 <= i < j < |r| ensures r[i].id != r[j].id {
          if i == 0 {
            assert r[j] in rest;
          } else {
            assert r[i] == rest[i - 1] && r[j] == rest[j - 1];
          }
        }
      } else {
        assert seen' == seen;
      }
    }
  }

  lemma {:induction false} IdsConcat(a: seq<GraphNode>, b: seq<GraphNode>)
    ensures Ids(a + b) == Ids(a) + Ids(b)
    decreases |a|
  {
    if a == [] {
      assert a + b == b;
    } else {
      assert (a + b)[1..] == a[1..] + b;
      IdsConcat(a[1..], b);
    }
  }

  lemma {:induction false} FreshConcat(a: seq<GraphNode>, b: seq<GraphNode>, seen: set<string>)
    ensures Fresh(a + b, seen) == Fresh(a, seen) + Fresh(b, seen + Ids(a))
    decreases |a|
  {
    if a == [] {
      assert a + b == b;
      assert Ids(a) == {};
      assert seen + Ids(a) == seen;
    } else {
      var seen' := seen + {a[0].id};
      assert (a + b)[0] == a[0];
      assert (a + b)[1..] == a[1..] + b;
      FreshConcat(a[1..], b, seen');
      assert seen' + Ids(a[1..]) == seen + Ids(a);
      if a[0].id in seen {
        assert seen' == seen;
      }
    }
  }

  /** `tree_to_graph`: appends the node for `t` (unless its path was already
      visited) and then, child by child, the edge to the child and everything
      below the child. */
  method TreeToGraph(t: TreeNode, path: string, nodes: seq<GraphNode>, edges: seq<GraphEdge>, visited: set<string>)
    returns (nodes': seq<GraphNode>, edges': seq<GraphEdge>, visited': set<string>)
    ensures nodes' == nodes + Fresh(NodeList(t, path), visited)
    ensures edges' == edges + EdgeList(t, path)
    ensures visited' == visited + Ids(NodeList(t, path))
    decreases t, 1
  {
    var currentPath := if path == "" then t.name else path + "/" + t.name;
    var self := GraphNode(currentPath, t.name);
    nodes', edges', visited' := nodes, edges, visited;
    if currentPath !in visited' {
      visited' := visited' + {currentPath};
      nodes' := nodes' + [self];
    }
    ghost var n1, v1 := nodes', visited';
    nodes', edges', visited' := ChildrenToGraph(t, currentPath, nodes', edges', visited');
    SelfNodes(t, path, nodes, visited, n1, v1, nodes');
    SelfIdsAndEdges(t, path, edges, visited, v1, edges', visited');
  }

  /** The node of `t` followed by what its children add is what `t` adds. */
  lemma SelfNodes(t: TreeNode, path: string, nodes: seq<GraphNode>, visited: set<string>,
                  n1: seq<GraphNode>, v1: set<string>, n2: seq<GraphNode>)
    requires n1 == (if PathOf(t.name, path) in visited then nodes else nodes + [GraphNode(PathOf(t.name, path), t.name)])
    requires v1 == visited + {PathOf(t.name, path)}
    requires n2 == n1 + Fresh(ChildNodes(t.children, PathOf(t.name, path)), v1)
    ensures n2 == nodes + Fresh(NodeList(t, path), visited)
  {
    var id := PathOf(t.name, path);
    var self := GraphNode(id, t.name);
    var rest := ChildNodes(t.children, id);
    var tail := Fresh(rest, v1);
    assert NodeList(t, path) == [self] + rest;
    FreshConcat([self], rest, visited);
    assert Ids([self]) == {id};
    if id in visited {
      assert Fresh([self], visited) == [];
      assert Fresh(NodeList(t, path), visited) == [] + tail;
      assert [] + tail == tail;
    } else {
      assert Fresh([self], visited) == [self];
      assert Fresh(NodeList(t, path), visited) == [self] + tail;
      assert n2 == (nodes + [self]) + tail;
      assert (nodes + [self]) + tail == nodes + ([self] + tail);
    }
  }

  lemma SelfIdsAndEdges(t: TreeNode, path: string, edges: seq<GraphEdge>, visited: set<string>,
                        v1: set<string>, e2: seq<GraphEdge>, v2: set<string>)
    requires var id := PathOf(t.name, path);
      && v1 == visited + {id}
      && e2 == edges + ChildEdges(t.children, id)
      && v2 == v1 + Ids(ChildNodes(t.children, id))
    ensures e2 == edges + EdgeList(t, path)
    ensures v2 == visited + Ids(NodeList(t, path))
  {
    SelfThenChildren(t, path, visited);
  }

  /** The loop over the children in `tree_to_graph`, below the node with id
      `currentPath`. */
  method ChildrenToGraph(t: TreeNode, currentPath: string, nodes: seq<GraphNode>, edges: seq<GraphEdge>, visited: set<string>)
    returns (nodes': seq<GraphNode>, edges': seq<GraphEdge>, visited': set<string>)
    ensures nodes' == nodes + Fresh(ChildNodes(t.children, currentPath), visited)
    ensures edges' == edges + ChildEdges(t.children, currentPath)
    ensures visited' == visited + Ids(ChildNodes(t.children, currentPath))
    decreases t, 0
  {
    var cs := t.children;
    nodes', edges', visited' := nodes, edges, visited;
    var i := 0;
    assert cs[..i] == [];
    while i < |cs|
      invariant 0 <= i <= |cs|
      invariant nodes' == nodes + Fresh(ChildNodes(cs[..i], currentPath), visited)
      invariant edges' == edges + ChildEdges(cs[..i], currentPath)
      invariant visited' == visited + Ids(ChildNodes(cs[..i], currentPath))
    {
      var child := cs[i];
      var childPath := currentPath + "/" + child.name;
      edges' := edges' + [GraphEdge(currentPath + "_" + childPath, currentPath, childPath, child.amount)];
      ghost var n0, e0, v0 := nodes', edges', visited';
      nodes', edges', visited' := TreeToGraph(child, currentPath, nodes', edges', visited');
      ChildStep(cs, i, currentPath, visited);
      LoopNodes(nodes, Fresh(ChildNodes(cs[..i], currentPath), visited), Fresh(NodeList(child, currentPath), v0),
                Fresh(ChildNodes(cs[..i + 1], currentPath), visited), n0, nodes');
      LoopEdges(cs, i, currentPath, edges, e0, edges');
      LoopIds(cs, i, currentPath, visited, v0, visited');
      i := i + 1;
    }
    assert cs[..i] == cs;
  }

  /** One turn of the children loop keeps its invariant on the nodes... */
  lemma LoopNodes(nodes: seq<GraphNode>, before: seq<GraphNode>, added: seq<GraphNode>, whole: seq<GraphNode>,
                  n0: seq<GraphNode>, n1: seq<GraphNode>)
    requires whole == before + added
    requires n0 == nodes + before
    requires n1 == n0 + added
    ensures n1 == nodes + whole
  {
    assert (nodes + before) + added == nodes + (before + added);
  }

  /** ... on the edges ... */
  lemma LoopEdges(cs: seq<TreeNode>, i: int, p: string, edges: seq<GraphEdge>, e0: seq<GraphEdge>, e1: seq<GraphEdge>)
    requires 0 <= i < |cs|
    requires ChildEdges(cs[..i + 1], p) == ChildEdges(cs[..i], p) + [EdgeTo(p, cs[i])] + EdgeList(cs[i], p)
    requires e0 == edges + ChildEdges(cs[..i], p) + [GraphEdge(p + "_" + (p + "/" + cs[i].name), p, p + "/" + cs[i].name, cs[i].amount)]
    requires e1 == e0 + EdgeList(cs[i], p)
    ensures e1 == edges + ChildEdges(cs[..i + 1], p)
  {
    assert e1 == edges + (ChildEdges(cs[..i], p) + [EdgeTo(p, cs[i])] + EdgeList(cs[i], p));
  }

  /** ... and on the visited ids. */
  lemma LoopIds(cs: seq<TreeNode>, i: int, p: string, visited: set<string>, v0: set<string>, v1: set<string>)
    requires 0 <= i < |cs|
    requires Ids(ChildNodes(cs[..i + 1], p)) == Ids(ChildNodes(cs[..i], p)) + Ids(NodeList(cs[i], p))
    requires v0 == visited + Ids(ChildNodes(cs[..i], p))
    requires v1 == v0 + Ids(NodeList(cs[i], p))
    ensures v1 == visited + Ids(ChildNodes(cs[..i + 1], p))
  {
  }

  /** What one more child adds to the traversal's node list, ids and edges. */
  lemma ChildStep(cs: seq<TreeNode>, i: int, p: string, seen: set<string>)
    requires 0 <= i < |cs|
    ensures Fresh(ChildNodes(cs[..i + 1], p), seen)
         == Fresh(ChildNodes(cs[..i], p), seen) + Fresh(NodeList(cs[i], p), seen + Ids(ChildNodes(cs[..i], p)))
    ensures Ids(ChildNodes(cs[..i + 1], p)) == Ids(ChildNodes(cs[..i], p)) + Ids(NodeList(cs[i], p))
    ensures ChildEdges(cs[..i + 1], p) == ChildEdges(cs[..i], p) + [EdgeTo(p, cs[i])] + EdgeList(cs[i], p)
  {
    assert cs[..i + 1][..i] == cs[..i];
    FreshConcat(ChildNodes(cs[..i], p), NodeList(cs[i], p), seen);
    IdsConcat(ChildNodes(cs[..i], p), NodeList(cs[i], p));
  }

  /** A node's list is its own node followed by its children's. */
  lemma SelfThenChildren(t: TreeNode, path: string, visited: set<string>)
    ensures var self := GraphNode(PathOf(t.name, path), t.name);
      var rest := ChildNodes(t.children, self.id);
      && Fresh(NodeList(t, path), visited) == Fresh([self], visited) + Fresh(rest, visited + {self.id})
      && Ids(NodeList(t, path)) == {self.id} + Ids(rest)
      && EdgeList(t, path) == ChildEdges(t.children, self.id)
  {
    var self := GraphNode(PathOf(t.name, path), t.name);
    var rest := ChildNodes(t.children, self.id);
    FreshConcat([self], rest, visited);
    IdsConcat([self], rest);
    assert Ids([self]) == {self.id};
  }

  /** The post-filter's test: an edge leaving the root with label 0 is dropped. */
  function KeepEdge(topName: string): GraphEdge -> bool {
    (e: GraphEdge) => !(e.source == topName && e.amount == 0.0)
  }

  /** `get_graph`: 400 when the top component does not exist, otherwise the
      deduplicated nodes and the edges without the root's zero-amount edges. */
  method GetGraph(db: Database, topName: string) returns (r: Result<GraphData>)
    ensures r.Err? <==> topName !in db.components
    ensures r.Err? ==> r.status == 400
    ensures r.Ok? ==> GetTree(db.components, db.relationships, topName).Ok?
    ensures r.Ok? ==> var tree := GetTree(db.components, db.relationships, topName).value;
      r.value.nodes == Fresh(NodeList(tree, ""), {})
      && r.value.edges == Filter(EdgeList(tree, ""), KeepEdge(topName))
  {
    var tree := GetTree(db.components, db.relationships, topName);
    if tree.Err? {
      return Err(400);
    }
    var nodes, edges, visited := TreeToGraph(tree.value, "", [], [], {});
    assert nodes == Fresh(NodeList(tree.value, ""), {});
    assert edges == EdgeList(tree.value, "");
    edges := Filter(edges, KeepEdge(topName));
    r := Ok(GraphData(nodes, edges));
  }

  // ---- properties of the graph ------------------------------------------

  /** Each path is a node at most once, the root comes first, and the node ids
      are exactly the paths of the tree. */
  lemma GraphNodes(t: TreeNode)
    ensures var ns := Fresh(NodeList(t, ""), {});
      && (forall i, j :: 0 <= i < j < |ns| ==> ns[i].id != ns[j].id)
      && |ns| >= 1 && ns[0] == GraphNode(t.name, t.name)
      && Ids(ns) == Ids(NodeList(t, ""))
  {
    var all := NodeList(t, "");
    FreshProperties(all, {});
    assert all == [all[0]] + all[1..];
  }

  /** A node's id is its parent's id, a '/', and its own name. */
  lemma {:induction false} ChildIdsExtendParent(t: TreeNode, path: string, i: int)
    requires 0 <= i < |t.children| && PathOf(t.name, path) != ""
    ensures PathOf(t.children[i].name, PathOf(t.name, path)) == PathOf(t.name, path) + "/" + t.children[i].name
  {
  }

  /** Every edge joins two emitted node ids, provided the root's own name is
      not empty (an empty root name makes its edges point to "/child" while
      the child's node is "child"). */
  lemma {:induction false} EdgeEndpointsAreNodes(t: TreeNode, path: string)
    requires PathOf(t.name, path) != ""
    ensures forall e :: e in EdgeList(t, path) ==> e.source in Ids(NodeList(t, path)) && e.target in Ids(NodeList(t, path))
    decreases t
  {
    var p := PathOf(t.name, path);
    ChildEdgeEndpoints(t.children, p);
    var ns := NodeList(t, path);
    IdsConcat([ns[0]], ChildNodes(t.children, p));
    assert ns == [ns[0]] + ChildNodes(t.children, p);
    assert Ids([ns[0]]) == {p};
  }

  lemma {:induction false} ChildEdgeEndpoints(cs: seq<TreeNode>, p: string)
    requires p != ""
    ensures forall e :: e in ChildEdges(cs, p) ==> e.source == p || e.source in Ids(ChildNodes(cs, p))
    ensures forall e :: e in ChildEdges(cs, p) ==> e.target in Ids(ChildNodes(cs, p))
    decreases cs
  {
    if cs != [] {
      var init := cs[..|cs| - 1];
      var last := cs[|cs| - 1];
      ChildEdgeEndpoints(init, p);
      EdgeEndpointsAreNodes(last, p);
      IdsConcat(ChildNodes(init, p), NodeList(last, p));
      assert PathOf(last.name, p) == p + "/" + last.name;
      assert NodeList(last, p)[0].id == p + "/" + last.name;
      assert EdgeTo(p, last).target in Ids(NodeList(last, p));
      forall e | e in ChildEdges(cs, p)
        ensures e.source == p || e.source in Ids(ChildNodes(cs, p))
        ensures e.target in Ids(ChildNodes(cs, p))
      {
        if e in ChildEdges(init, p) {
        } else if e == EdgeTo(p, last) {
        } else {
          assert e in EdgeList(last, p);
        }
      }
    }
  }

  /** Why the two lemmas above need a non-empty root name: a root named ""
      with one child "c" emits the node "c", but the edge to it targets "/c". */
  lemma EmptyRootDanglingEdge()
    ensures var t := TreeNode("", 1.0, [TreeNode("c", 1.0, [])]);
      EdgeList(t, "") == [GraphEdge("_/c", "", "/c", 1.0)]
      && Ids(NodeList(t, "")) == {"", "c"}
      && "/c" !in Ids(NodeList(t, ""))
  {
    var c := TreeNode("c", 1.0, []);
    var t := TreeNode("", 1.0, [c]);
    assert [c][..0] == [];
    assert EdgeList(c, "") == [];
    assert "" + "/" + "c" == "/c" && "" + "_" + "/c" == "_/c";
    assert ChildEdges([c], "") == [EdgeTo("", c)] + EdgeList(c, "");
    assert ChildNodes([c], "") == NodeList(c, "");
    assert NodeList(c, "") == [GraphNode("c", "c")];
    assert NodeList(t, "") == [GraphNode("", ""), GraphNode("c", "c")];
    assert Ids([GraphNode("c", "c")]) == {"c"};
  }

  /** One edge per non-root occurrence. */
  lemma {:induction false} OneEdgePerChildOccurrence(t: TreeNode, path: string)
    ensures |EdgeList(t, path)| == |NodeList(t, path)| - 1
    decreases t
  {
    ChildEdgeCount(t.children, PathOf(t.name, path));
  }

  lemma {:induction false} ChildEdgeCount(cs: seq<TreeNode>, p: string)
    ensures |ChildEdges(cs, p)| == |ChildNodes(cs, p)|
    decreases cs
  {
    if cs != [] {
      ChildEdgeCount(cs[..|cs| - 1], p);
      OneEdgePerChildOccurrence(cs[|cs| - 1], p);
    }
  }

  /** The post-filter removes exactly the root edges labelled 0 and keeps the
      order of the rest; every node stays. */
  lemma FilterDropsOnlyRootZeroEdges(edges: seq<GraphEdge>, topName: string)
    ensures forall e :: e in Filter(edges, KeepEdge(topName)) <==>
      e in edges && (e.source != topName || e.amount != 0.0)
    ensures |Filter(edges, KeepEdge(topName))| <= |edges|
  {
  }
}
