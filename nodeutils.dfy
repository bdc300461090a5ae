/** The flow-chart layout of a fetched tree (`calculateNodePositions` in the
    flow-chart node helpers): every occurrence of a component in the tree
    becomes its own instance, named by the path of child slots leading to it,
    so a component used twice is drawn twice. The walk records each
    instance's level, the `[childPath, name, amount]` triples under each
    path, and then places the instances level by level with the same formula
    as the main canvas. */
module NodeUtils {
  import opened Text
  import opened Layout

  /** A node of the fetched tree. An absent `children` is the empty list. */
  datatype TreeNode = TreeNode(name: string, amount: real, children: seq<TreeNode>)

  /** An entry of `allNodeInstances`. Its `children` array is the very array
      stored in `flatTree` under its path, so it is kept there only. */
  datatype Instance = Instance(path: string, name: string, level: nat)

  /** One `[childPath, name, amount]` triple of `flatTree`. */
  datatype ChildEntry = ChildEntry(path: string, name: string, amount: real)

  /** The path of a node: its parent's path, a '/', and its name; just the
      name when there is no parent path. */
  function NodePath(parentPath: string, name: string): string {
    if parentPath != "" then parentPath + "/" + name else name
  }

  /** The parent path handed to child `index` of the node at `nodePath`. */
  function ChildPrefix(nodePath: string, index: nat): (r: string)
    ensures |r| > |nodePath|
  {
    nodePath + "/child_" + NatToString(index)
  }

  /** The parent path handed to root `index`. */
  function RootPrefix(index: nat): string {
    "root_" + NatToString(index)
  }

  /** The triples recorded under the node at `nodePath`, in child order, with
      each child path spelled out as the walk writes it. */
  function ChildEntries(node: TreeNode, nodePath: string): (r: seq<ChildEntry>)
    ensures |r| == |node.children|
  {
    seq(|node.children|, k requires 0 <= k < |node.children| =>
      ChildEntry(nodePath + "/child_" + NatToString(k) + "/" + node.children[k].name,
                 node.children[k].name, node.children[k].amount))
  }

  /** The instances the walk pushes for `node`, in the order it pushes them:
      the node itself, then the instances of each child in turn. */
  function Instances(node: TreeNode, level: nat, parentPath: string): seq<Instance>
    decreases node, 1, 0
  {
    var path := NodePath(parentPath, node.name);
    [Instance(path, node.name, level)] + ChildInstances(node, |node.children|, level + 1, path)
  }

  /** The instances of the first `k` children of `node`. */
  function ChildInstances(node: TreeNode, k: nat, level: nat, nodePath: string): seq<Instance>
    requires k <= |node.children|
    decreases node, 0, k
  {
    if k == 0 then []
    else ChildInstances(node, k - 1, level, nodePath) + Instances(node.children[k - 1], level, ChildPrefix(nodePath, k - 1))
  }

  /** The `flatTree` entries the walk sets for `node`, in the order it sets
      them: each child's entries, then the node's own (it is set on the way
      back up). */
  function FlatEntries(node: TreeNode, parentPath: string): seq<(string, seq<ChildEntry>)>
    decreases node, 1, 0
  {
    var path := NodePath(parentPath, node.name);
    ChildFlatEntries(node, |node.children|, path) + [(path, ChildEntries(node, path))]
  }

  /** The `flatTree` entries of the first `k` children of `node`. */
  function ChildFlatEntries(node: TreeNode, k: nat, nodePath: string): seq<(string, seq<ChildEntry>)>
    requires k <= |node.children|
    decreases node, 0, k
  {
    if k == 0 then []
    else ChildFlatEntries(node, k - 1, nodePath) + FlatEntries(node.children[k - 1], ChildPrefix(nodePath, k - 1))
  }

  /** The instances of the first `k` roots. */
  function ForestInstances(roots: seq<TreeNode>, k: nat): seq<Instance>
    requires k <= |roots|
  {
    if k == 0 then [] else ForestInstances(roots, k - 1) + Instances(roots[k - 1], 0, RootPrefix(k - 1))
  }

  /** The `flatTree` entries of the first `k` roots. */
  function ForestFlatEntries(roots: seq<TreeNode>, k: nat): seq<(string, seq<ChildEntry>)>
    requires k <= |roots|
  {
    if k == 0 then [] else ForestFlatEntries(roots, k - 1) + FlatEntries(roots[k - 1], RootPrefix(k - 1))
  }

  /** `levels.set(path, level)` for each instance in turn. */
  function RecordLevels(m: map<string, nat>, xs: seq<Instance>): map<string, nat> {
    if xs == [] then m
    else RecordLevels(m, xs[..|xs| - 1])[xs[|xs| - 1].path := xs[|xs| - 1].level]
  }

  /** `flatTree.set(path, children)` for each entry in turn. */
  function RecordFlat(m: map<string, seq<ChildEntry>>, xs: seq<(string, seq<ChildEntry>)>): map<string, seq<ChildEntry>> {
    if xs == [] then m
    else RecordFlat(m, xs[..|xs| - 1])[xs[|xs| - 1].0 := xs[|xs| - 1].1]
  }

  lemma {:induction false} RecordLevelsConcat(m: map<string, nat>, a: seq<Instance>, b: seq<Instance>)
    ensures RecordLevels(m, a + b) == RecordLevels(RecordLevels(m, a), b)
    decreases |b|
  {
    if b == [] {
      assert a + b == a;
    } else {
      var init := b[..|b| - 1];
      assert (a + b)[..|a + b| - 1] == a + init;
      RecordLevelsConcat(m, a, init);
    }
  }

  lemma {:induction false} RecordFlatConcat(m: map<string, seq<ChildEntry>>, a: seq<(string, seq<ChildEntry>)>, b: seq<(string, seq<ChildEntry>)>)
    ensures RecordFlat(m, a + b) == RecordFlat(RecordFlat(m, a), b)
    decreases |b|
  {
    if b == [] {
      assert a + b == a;
    } else {
      var init := b[..|b| - 1];
      assert (a + b)[..|a + b| - 1] == a + init;
      RecordFlatConcat(m, a, init);
    }
  }

  /** Recording instances none of which has path `q` leaves `q`'s entry alone. */
  lemma {:induction false} RecordLevelsElsewhere(m: map<string, nat>, xs: seq<Instance>, q: string)
    requires forall k :: 0 <= k < |xs| ==> xs[k].path != q
    ensures q in RecordLevels(m, xs) <==> q in m
    ensures q in m ==> RecordLevels(m, xs)[q] == m[q]
    decreases |xs|
  {
    if xs != [] {
      RecordLevelsElsewhere(m, xs[..|xs| - 1], q);
    }
  }

  /** Every instance below a node has a longer path than the node: the paths
      of a node's instances are at least as long as its own path, and those
      of its children's instances are longer than it. */
  lemma {:induction false} PathsGrow(node: TreeNode, level: nat, parentPath: string)
    ensures forall x :: x in Instances(node, level, parentPath) ==> |x.path| >= |NodePath(parentPath, node.name)|
    decreases node, 1, 0
  {
    var path := NodePath(parentPath, node.name);
    ChildPathsGrow(node, |node.children|, level + 1, path);
  }

  lemma {:induction false} ChildPathsGrow(node: TreeNode, k: nat, level: nat, nodePath: string)
    requires k <= |node.children|
    ensures forall x :: x in ChildInstances(node, k, level, nodePath) ==> |x.path| > |nodePath|
    decreases node, 0, k
  {
    if k > 0 {
      ChildPathsGrow(node, k - 1, level, nodePath);
      var child := node.children[k - 1];
      var prefix := ChildPrefix(nodePath, k - 1);
      PathsGrow(child, level, prefix);
      assert |NodePath(prefix, child.name)| >= |prefix|;
    }
  }

  /** After the walk of a node, `levels` holds the node's own level under its
      path: nothing recorded after it has that path. */
  lemma OwnLevel(m: map<string, nat>, node: TreeNode, level: nat, parentPath: string)
    ensures NodePath(parentPath, node.name) in RecordLevels(m, Instances(node, level, parentPath))
    ensures RecordLevels(m, Instances(node, level, parentPath))[NodePath(parentPath, node.name)] == level
  {
    var path := NodePath(parentPath, node.name);
    var self := Instance(path, node.name, level);
    var rest := ChildInstances(node, |node.children|, level + 1, path);
    ChildPathsGrow(node, |node.children|, level + 1, path);
    forall k | 0 <= k < |rest| ensures rest[k].path != path {
      assert rest[k] in rest;
    }
    RecordLevelsConcat(m, [self], rest);
    assert RecordLevels(m, [self]) == m[path := level] by {
      assert [self][..0] == [];
    }
    RecordLevelsElsewhere(m[path := level], rest, path);
  }

  /** After the walk of a node, `flatTree` holds the node's own children
      under its path: its entry is set last. */
  lemma OwnChildren(m: map<string, seq<ChildEntry>>, node: TreeNode, parentPath: string)
    ensures var path := NodePath(parentPath, node.name);
      path in RecordFlat(m, FlatEntries(node, parentPath)) &&
      RecordFlat(m, FlatEntries(node, parentPath))[path] == ChildEntries(node, path)
  {
    var path := NodePath(parentPath, node.name);
    var xs := FlatEntries(node, parentPath);
    assert xs[|xs| - 1] == (path, ChildEntries(node, path));
  }

  /** The path recorded for child `k` in its parent's triples is the path under
      which the walk registers that child, one level further down, and the
      triple carries the child's name and amount. */
  lemma ChildPathRegistered(node: TreeNode, level: nat, nodePath: string, k: nat)
    requires k < |node.children|
    ensures var registered := Instances(node.children[k], level + 1, ChildPrefix(nodePath, k))[0];
      ChildEntries(node, nodePath)[k] == ChildEntry(registered.path, registered.name, node.children[k].amount) &&
      registered.level == level + 1
  {
    var child := node.children[k];
    assert nodePath + "/child_" + NatToString(k) + "/" + child.name
        == NodePath(ChildPrefix(nodePath, k), child.name);
  }

  /** Root `i` is registered at level 0 under `root_<i>/<name>`. */
  lemma RootRegistered(roots: seq<TreeNode>, i: nat)
    requires i < |roots|
    ensures Instances(roots[i], 0, RootPrefix(i))[0] == Instance("root_" + NatToString(i) + "/" + roots[i].name, roots[i].name, 0)
  {
  }

  /** The number of occurrences of nodes in a tree. */
  function Size(node: TreeNode): nat
    decreases node, 1, 0
  {
    1 + ChildSize(node, |node.children|)
  }

  function ChildSize(node: TreeNode, k: nat): nat
    requires k <= |node.children|
    decreases node, 0, k
  {
    if k == 0 then 0 else ChildSize(node, k - 1) + Size(node.children[k - 1])
  }

  /** No instance is merged with another: a tree gives one instance per
      occurrence. */
  lemma {:induction false} OneInstancePerOccurrence(node: TreeNode, level: nat, parentPath: string)
    ensures |Instances(node, level, parentPath)| == Size(node)
    decreases node, 1, 0
  {
    ChildOneInstancePerOccurrence(node, |node.children|, level + 1, NodePath(parentPath, node.name));
  }

  lemma {:induction false} ChildOneInstancePerOccurrence(node: TreeNode, k: nat, level: nat, nodePath: string)
    requires k <= |node.children|
    ensures |ChildInstances(node, k, level, nodePath)| == ChildSize(node, k)
    decreases node, 0, k
  {
    if k > 0 {
      ChildOneInstancePerOccurrence(node, k - 1, level, nodePath);
      OneInstancePerOccurrence(node.children[k - 1], level, ChildPrefix(nodePath, k - 1));
    }
  }

  /** The names of the nodes `d` steps below `node`, left to right. */
  function AtDepth(node: TreeNode, d: nat): seq<string>
    decreases node, 1, 0
  {
    if d == 0 then [node.name] else ChildAtDepth(node, |node.children|, d - 1)
  }

  function ChildAtDepth(node: TreeNode, k: nat, d: nat): seq<string>
    requires k <= |node.children|
    decreases node, 0, k
  {
    if k == 0 then [] else ChildAtDepth(node, k - 1, d) + AtDepth(node.children[k - 1], d)
  }

  /** The names of the instances at level `l`, in order. */
  function NamesAtLevel(xs: seq<Instance>, l: nat): seq<string> {
    if xs == [] then []
    else NamesAtLevel(xs[..|xs| - 1], l) + (if xs[|xs| - 1].level == l then [xs[|xs| - 1].name] else [])
  }

  lemma {:induction false} NamesAtLevelConcat(a: seq<Instance>, b: seq<Instance>, l: nat)
    ensures NamesAtLevel(a + b, l) == NamesAtLevel(a, l) + NamesAtLevel(b, l)
    decreases |b|
  {
    if b == [] {
      assert a + b == a;
    } else {
      var init := b[..|b| - 1];
      assert (a + b)[..|a + b| - 1] == a + init;
      NamesAtLevelConcat(a, init, l);
    }
  }

  /** Instances below a node are at deeper levels than it. */
  lemma {:induction false} LevelsFrom(node: TreeNode, level: nat, parentPath: string)
    ensures forall x :: x in Instances(node, level, parentPath) ==> x.level >= level
    decreases node, 1, 0
  {
    ChildLevelsFrom(node, |node.children|, level + 1, NodePath(parentPath, node.name));
  }

  lemma {:induction false} ChildLevelsFrom(node: TreeNode, k: nat, level: nat, nodePath: string)
    requires k <= |node.children|
    ensures forall x :: x in ChildInstances(node, k, level, nodePath) ==> x.level >= level
    decreases node, 0, k
  {
    if k > 0 {
      ChildLevelsFrom(node, k - 1, level, nodePath);
      LevelsFrom(node.children[k - 1], level, ChildPrefix(nodePath, k - 1));
    }
  }

  /** Nothing at a level below `l` is named at `l`. */
  lemma {:induction false} NoNamesBelow(xs: seq<Instance>, l: nat)
    requires forall x :: x in xs ==> x.level > l
    ensures NamesAtLevel(xs, l) == []
    decreases |xs|
  {
    if xs != [] {
      assert xs[|xs| - 1] in xs;
      NoNamesBelow(xs[..|xs| - 1], l);
    }
  }

  /** An instance's level is its depth: the instances `d` levels below the
      start are exactly the nodes `d` steps down, each occurrence once, in
      left-to-right order. */
  lemma {:induction false} LevelIsDepth(node: TreeNode, level: nat, parentPath: string, d: nat)
    ensures NamesAtLevel(Instances(node, level, parentPath), level + d) == AtDepth(node, d)
    decreases node, 1, 0
  {
    if d == 0 {
      OwnLevelIsDepth(node, level, parentPath);
    } else {
      ChildLevelIsDepth(node, |node.children|, level + 1, NodePath(parentPath, node.name), d - 1);
      DeeperLevelIsDepth(node, level, parentPath, d);
    }
  }

  /** At the node's own level only the node is named. */
  lemma OwnLevelIsDepth(node: TreeNode, level: nat, parentPath: string)
    ensures NamesAtLevel(Instances(node, level, parentPath), level) == AtDepth(node, 0)
  {
    var path := NodePath(parentPath, node.name);
    var self := Instance(path, node.name, level);
    var rest := ChildInstances(node, |node.children|, level + 1, path);
    assert Instances(node, level, parentPath) == [self] + rest;
    NamesAtLevelConcat([self], rest, level);
    NamesOfOne(self, level);
    ChildLevelsFrom(node, |node.children|, level + 1, path);
    NoNamesBelow(rest, level);
    assert [node.name] + [] == [node.name];
  }

  /** Below the node's own level only its children's instances are named. */
  lemma DeeperLevelIsDepth(node: TreeNode, level: nat, parentPath: string, d: nat)
    requires d > 0
    requires NamesAtLevel(ChildInstances(node, |node.children|, level + 1, NodePath(parentPath, node.name)), level + 1 + (d - 1))
          == ChildAtDepth(node, |node.children|, d - 1)
    ensures NamesAtLevel(Instances(node, level, parentPath), level + d) == AtDepth(node, d)
  {
    var path := NodePath(parentPath, node.name);
    var self := Instance(path, node.name, level);
    var rest := ChildInstances(node, |node.children|, level + 1, path);
    assert Instances(node, level, parentPath) == [self] + rest;
    NamesAtLevelConcat([self], rest, level + d);
    NamesOfOne(self, level + d);
    assert level + 1 + (d - 1) == level + d;
    assert [] + NamesAtLevel(rest, level + d) == NamesAtLevel(rest, level + d);
  }

  lemma NamesOfOne(x: Instance, l: nat)
    ensures NamesAtLevel([x], l) == if x.level == l then [x.name] else []
  {
    assert [x][..0] == [];
  }

  lemma {:induction false} ChildLevelIsDepth(node: TreeNode, k: nat, level: nat, nodePath: string, d: nat)
    requires k <= |node.children|
    ensures NamesAtLevel(ChildInstances(node, k, level, nodePath), level + d) == ChildAtDepth(node, k, d)
    decreases node, 0, k
  {
    if k > 0 {
      var child := node.children[k - 1];
      NamesAtLevelConcat(ChildInstances(node, k - 1, level, nodePath), Instances(child, level, ChildPrefix(nodePath, k - 1)), level + d);
      ChildLevelIsDepth(node, k - 1, level, nodePath, d);
      LevelIsDepth(child, level, ChildPrefix(nodePath, k - 1), d);
    }
  }

  /** The layout pass as a pair for grouping: each instance's path at its
      level. */
  function SlotsOf(xs: seq<Instance>): (r: seq<Slot>)
    ensures |r| == |xs|
    ensures forall i :: 0 <= i < |r| ==> r[i] == Slot(xs[i].path, xs[i].level)
  {
    seq(|xs|, i requires 0 <= i < |xs| => Slot(xs[i].path, xs[i].level))
  }

  /** One turn of the child loop lists the next child's triple. */
  lemma EntryStep(node: TreeNode, nodePath: string, index: nat)
    requires index < |node.children|
    ensures ChildEntries(node, nodePath)[..index + 1] == ChildEntries(node, nodePath)[..index] +
      [ChildEntry(nodePath + "/child_" + NatToString(index) + "/" + node.children[index].name,
                  node.children[index].name, node.children[index].amount)]
  {
  }

  /** A snapshot of the walk's shared state. */
  datatype WalkState = WalkState(instances: seq<Instance>, levels: map<string, nat>, flatTree: map<string, seq<ChildEntry>>)

  /** `after` is `before` with the instances `xs` pushed and recorded in
      `levels`, and the entries `fs` set in `flatTree`. */
  ghost predicate Recorded(after: WalkState, before: WalkState, xs: seq<Instance>, fs: seq<(string, seq<ChildEntry>)>) {
    && after.instances == before.instances + xs
    && after.levels == RecordLevels(before.levels, xs)
    && after.flatTree == RecordFlat(before.flatTree, fs)
  }

  lemma RecordedTrans(s0: WalkState, s1: WalkState, s2: WalkState,
                      xs: seq<Instance>, fs: seq<(string, seq<ChildEntry>)>,
                      ys: seq<Instance>, gs: seq<(string, seq<ChildEntry>)>)
    requires Recorded(s1, s0, xs, fs) && Recorded(s2, s1, ys, gs)
    ensures Recorded(s2, s0, xs + ys, fs + gs)
  {
    RecordLevelsConcat(s0.levels, xs, ys);
    RecordFlatConcat(s0.flatTree, fs, gs);
    assert s0.instances + xs + ys == s0.instances + (xs + ys);
  }

  /** Pushing one instance and recording its level. */
  lemma PushOne(s: WalkState, x: Instance)
    ensures Recorded(WalkState(s.instances + [x], s.levels[x.path := x.level], s.flatTree), s, [x], [])
  {
    assert [x][..0] == [];
  }

  /** Setting one `flatTree` entry. */
  lemma SetOne(s: WalkState, p: string, children: seq<ChildEntry>)
    ensures Recorded(WalkState(s.instances, s.levels, s.flatTree[p := children]), s, [], [(p, children)])
  {
    assert [(p, children)][..0] == [];
    assert s.instances + [] == s.instances;
  }

  /** The walk's shared state: `allNodeInstances`, `levels` and `flatTree`,
      which `traverseNode` updates as it recurses. */
  class Traversal {
    var instances: seq<Instance>
    var levels: map<string, nat>
    var flatTree: map<string, seq<ChildEntry>>

    constructor()
      ensures instances == [] && levels == map[] && flatTree == map[]
    {
      instances := [];
      levels := map[];
      flatTree := map[];
    }

    function State(): WalkState
      reads this
    {
      WalkState(instances, levels, flatTree)
    }

    /** `traverseNode`: push the node's instance and record its level, walk
        its children one level down, then record its triples. */
    method TraverseNode(node: TreeNode, level: nat, parentPath: string)
      modifies this
      ensures Recorded(State(), old(State()), Instances(node, level, parentPath), FlatEntries(node, parentPath))
      decreases node, 1
    {
      ghost var s0 := State();
      var nodePath := NodePath(parentPath, node.name);
      var self := Instance(nodePath, node.name, level);
      instances := instances + [self];
      levels := levels[nodePath := level];
      ghost var s1 := State();
      PushOne(s0, self);
      var childList := TraverseChildren(node, level + 1, nodePath);
      ghost var s2 := State();
      ghost var below := ChildInstances(node, |node.children|, level + 1, nodePath);
      ghost var belowFlat := ChildFlatEntries(node, |node.children|, nodePath);
      RecordedTrans(s0, s1, s2, [self], [], below, belowFlat);
      flatTree := flatTree[nodePath := childList];
      ghost var own := [(nodePath, childList)];
      SetOne(s2, nodePath, childList);
      RecordedTrans(s0, s2, State(), [self] + below, [] + belowFlat, [], own);
      assert [self] + below + [] == Instances(node, level, parentPath);
      assert [] + belowFlat + own == FlatEntries(node, parentPath);
    }

    /** The `forEach` over the children of the node at `nodePath`: list child
        `index`'s triple under `<nodePath>/child_<index>/<name>` and walk it
        with that parent path. Returns the triples in child order. */
    method TraverseChildren(node: TreeNode, level: nat, nodePath: string) returns (childList: seq<ChildEntry>)
      modifies this
      ensures childList == ChildEntries(node, nodePath)
      ensures Recorded(State(), old(State()), ChildInstances(node, |node.children|, level, nodePath),
                       ChildFlatEntries(node, |node.children|, nodePath))
      decreases node, 0
    {
      childList := [];
      ghost var s0 := State();
      assert Recorded(s0, s0, [], []) by {
        assert s0.instances + [] == s0.instances;
      }
      for index := 0 to |node.children|
        invariant childList == ChildEntries(node, nodePath)[..index]
        invariant Recorded(State(), s0, ChildInstances(node, index, level, nodePath), ChildFlatEntries(node, index, nodePath))
      {
        var child := node.children[index];
        var childPath := nodePath + "/child_" + NatToString(index) + "/" + child.name;
        EntryStep(node, nodePath, index);
        childList := childList + [ChildEntry(childPath, child.name, child.amount)];
        ghost var s1 := State();
        TraverseNode(child, level, nodePath + "/child_" + NatToString(index));
        RecordedTrans(s0, s1, State(), ChildInstances(node, index, level, nodePath), ChildFlatEntries(node, index, nodePath),
                      Instances(child, level, ChildPrefix(nodePath, index)), FlatEntries(child, ChildPrefix(nodePath, index)));
      }
      assert childList == ChildEntries(node, nodePath);
    }
  }

  /** The traversal half of `calculateNodePositions`: walk each fetched root
      under `root_<index>` with one shared `Traversal`, and return what it
      recorded. */
  method WalkForest(roots: seq<TreeNode>) returns (w: WalkState)
    ensures w.instances == ForestInstances(roots, |roots|)
    ensures w.levels == RecordLevels(map[], w.instances)
    ensures w.flatTree == RecordFlat(map[], ForestFlatEntries(roots, |roots|))
  {
    var walk := new Traversal();
    ghost var s0 := walk.State();
    assert Recorded(s0, s0, [], []);
    for index := 0 to |roots|
      invariant Recorded(walk.State(), s0, ForestInstances(roots, index), ForestFlatEntries(roots, index))
    {
      ghost var s1 := walk.State();
      walk.TraverseNode(roots[index], 0, "root_" + NatToString(index));
      RecordedTrans(s0, s1, walk.State(), ForestInstances(roots, index), ForestFlatEntries(roots, index),
                    Instances(roots[index], 0, RootPrefix(index)), FlatEntries(roots[index], RootPrefix(index)));
    }
    w := WalkState(walk.instances, walk.levels, walk.flatTree);
  }

  /** What `calculateNodePositions` returns. */
  datatype NodeLayout = NodeLayout(positions: map<string, Position>, levels: map<string, nat>,
                                   flatTree: map<string, seq<ChildEntry>>, allNodeInstances: seq<Instance>)

  /** `calculateNodePositions` on the fetched roots: walk the roots, group the
      instance paths by instance level, and place each level's paths with the
      shared row formula. */
  method CalculateNodePositions(roots: seq<TreeNode>) returns (r: NodeLayout)
    ensures r.allNodeInstances == ForestInstances(roots, |roots|)
    ensures r.levels == RecordLevels(map[], r.allNodeInstances)
    ensures r.flatTree == RecordFlat(map[], ForestFlatEntries(roots, |roots|))
    ensures forall p :: p in r.positions <==> exists x :: x in r.allNodeInstances && x.path == p
    ensures forall p :: p in r.positions ==> Placed(r.allNodeInstances, p, r.positions[p])
  {
    var w := WalkForest(roots);
    var slots := SlotsOf(w.instances);
    var levelOrder, groups := GroupByLevel(slots);
    var positions := PlaceNodes(levelOrder, groups);
    PlacedAreInstances(w.instances, levelOrder, groups, positions);
    InstancesArePlaced(w.instances, levelOrder, groups, positions);
    r := NodeLayout(positions, w.levels, w.flatTree, w.instances);
  }

  /** Every placed path is an instance's, at its level's height and at its
      slot among the paths of its level. */
  lemma PlacedAreInstances(instances: seq<Instance>, levelOrder: seq<nat>, groups: map<nat, seq<string>>, positions: map<string, Position>)
    requires Grouped(SlotsOf(instances), levelOrder, groups)
    requires forall n :: n in positions ==>
      exists k, i :: 0 <= k < |levelOrder| && 0 <= i < |groups[levelOrder[k]]| && groups[levelOrder[k]][i] == n &&
        positions[n] == Position(XAt(|groups[levelOrder[k]]|, i), levelOrder[k] * LevelHeight)
    ensures forall p :: p in positions ==> Placed(instances, p, positions[p])
  {
    var slots := SlotsOf(instances);
    forall p | p in positions ensures Placed(instances, p, positions[p]) {
      var k, i :| 0 <= k < |levelOrder| && 0 <= i < |groups[levelOrder[k]]| && groups[levelOrder[k]][i] == p &&
        positions[p] == Position(XAt(|groups[levelOrder[k]]|, i), levelOrder[k] * LevelHeight);
      var l := levelOrder[k];
      assert groups[l] == NamesAt(slots, l);
      assert AtSlot(slots, p, l, positions[p]);
      NamesAtMembership(slots, l);
      assert p in NamesAt(slots, l);
      var j :| 0 <= j < |slots| && slots[j] == Slot(p, l);
      assert instances[j] in instances && instances[j].path == p && instances[j].level == l;
    }
  }

  /** `pos` is where the row formula puts `p` on level `l`: at the level's
      height and at `p`'s slot among the paths of that level. */
  ghost predicate AtSlot(slots: seq<Slot>, p: string, l: nat, pos: Position) {
    var row := NamesAt(slots, l);
    pos.y == l * LevelHeight && exists i :: 0 <= i < |row| && row[i] == p && pos.x == XAt(|row|, i)
  }

  /** `p` is the path of an instance, placed on that instance's level. */
  ghost predicate Placed(instances: seq<Instance>, p: string, pos: Position) {
    exists x :: x in instances && x.path == p && AtSlot(SlotsOf(instances), p, x.level, pos)
  }

  /** Every instance's path is placed. */
  lemma InstancesArePlaced(instances: seq<Instance>, levelOrder: seq<nat>, groups: map<nat, seq<string>>, positions: map<string, Position>)
    requires Grouped(SlotsOf(instances), levelOrder, groups)
    requires forall n :: n in positions <==>
      exists k, i :: 0 <= k < |levelOrder| && 0 <= i < |groups[levelOrder[k]]| && groups[levelOrder[k]][i] == n
    ensures forall p :: p in positions <==> exists x :: x in instances && x.path == p
  {
    var slots := SlotsOf(instances);
    forall p ensures p in positions <==> exists x :: x in instances && x.path == p {
      if p in positions {
        var k, i :| 0 <= k < |levelOrder| && 0 <= i < |groups[levelOrder[k]]| && groups[levelOrder[k]][i] == p;
        NamesAtMembership(slots, levelOrder[k]);
        assert p in NamesAt(slots, levelOrder[k]);
        var j :| 0 <= j < |slots| && slots[j] == Slot(p, levelOrder[k]);
        assert instances[j] in instances;
      }
      if exists x :: x in instances && x.path == p {
        var x :| x in instances && x.path == p;
        var j :| 0 <= j < |instances| && instances[j] == x;
        NamesAtMembership(slots, x.level);
        assert slots[j] == Slot(p, x.level);
        assert p in NamesAt(slots, x.level);
        var k :| 0 <= k < |levelOrder| && levelOrder[k] == x.level;
        var i :| 0 <= i < |groups[x.level]| && groups[x.level][i] == p;
      }
    }
  }
}
