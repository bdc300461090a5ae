/** The flowchart canvas: levels by a depth-first walk from the root with
    one `visited` set for the whole walk, the hierarchical layout of the
    visited names, and the edges between names that got a node. */
module Canvas {
  import opened ClientTree
  import opened Layout
  import opened Wrappers

  /** The `levels` map with its insertion order. The `visited` set of the
      walk always has the same names as `levels`, so it is not kept apart. */
  datatype LevelTable = LevelTable(levels: map<string, nat>, order: seq<string>)

  ghost predicate Valid(t: LevelTable) {
    && (forall n :: n in t.levels <==> n in t.order)
    && (forall i, j :: 0 <= i < j < |t.order| ==> t.order[i] != t.order[j])
  }

  /** `r` keeps every level of `t` and extends its order. */
  ghost predicate Extends(t: LevelTable, r: LevelTable) {
    && (forall n :: n in t.levels ==> n in r.levels && r.levels[n] == t.levels[n])
    && |t.order| <= |r.order| && r.order[..|t.order|] == t.order
  }

  lemma {:induction false} SubsetSize<T>(a: set<T>, b: set<T>)
    requires a <= b
    ensures |a| <= |b|
    decreases a
  {
    if a != {} {
      var x :| x in a;
      SubsetSize(a - {x}, b - {x});
    }
  }

  /** The walk's measure drops once `name` is recorded: the children still
      to be recorded are fewer than the names, `name` among them, that were
      still to be recorded before. */
  lemma Smaller(tree: seq<TreeEntry>, name: string, t: LevelTable, r: LevelTable)
    requires name !in t.levels && name in r.levels
    requires t.levels.Keys <= r.levels.Keys
    ensures |ChildNames(tree) - r.levels.Keys| < |(ChildNames(tree) + {name}) - t.levels.Keys|
  {
    var a := ChildNames(tree) - r.levels.Keys;
    var b := (ChildNames(tree) + {name}) - t.levels.Keys;
    SubsetSize(a, b - {name});
  }

  /** `setLevels(name, level)` run on the table `t`, as a value: an already
      visited name leaves the table as it is; otherwise the name is recorded
      at `level`, after every name recorded before, and its children are
      walked at `level + 1` in list order, each from the table the previous
      one left. A name therefore gets the depth of the first path on which
      the depth-first walk meets it. */
  function Walk(tree: seq<TreeEntry>, name: string, level: nat, t: LevelTable): (r: LevelTable)
    ensures t.levels.Keys <= r.levels.Keys && name in r.levels
    decreases |(ChildNames(tree) + {name}) - t.levels.Keys|, 0
  {
    if name in t.levels then t
    else
      var s := LevelTable(t.levels[name := level], t.order + [name]);
      Smaller(tree, name, t, s);
      WalkKids(tree, name, level, s, 0)
  }

  /** The children of `name` from the `i`-th on, walked at `level + 1` in
      list order starting from the table `r`. */
  function WalkKids(tree: seq<TreeEntry>, name: string, level: nat, r: LevelTable, i: nat): (u: LevelTable)
    ensures r.levels.Keys <= u.levels.Keys
    decreases |ChildNames(tree) - r.levels.Keys|, |Kids(tree, name)| - i + 1
  {
    if i >= |Kids(tree, name)| then r
    else
      var kid := Kids(tree, name)[i];
      KidsAreChildNames(tree, name, kid);
      assert ChildNames(tree) + {kid} == ChildNames(tree);
      var next := Walk(tree, kid, level + 1, r);
      SubsetSize(ChildNames(tree) - next.levels.Keys, ChildNames(tree) - r.levels.Keys);
      WalkKids(tree, name, level, next, i + 1)
  }

  /** Every name recorded in `r` but not in `t`, outside `except`, has all
      its children recorded. */
  ghost predicate ClosedNew(tree: seq<TreeEntry>, t: LevelTable, r: LevelTable, except: set<string>) {
    forall v, c :: v in r.levels && v !in t.levels && v !in except && c in Kids(tree, v) ==> c in r.levels
  }

  /** `v` is recorded in `r` and not in `t`. */
  ghost predicate IsNew(t: LevelTable, r: LevelTable, v: string) {
    v in r.levels && v !in t.levels
  }

  /** `v` sits one level below a recorded name that lists it. */
  ghost predicate Below(tree: seq<TreeEntry>, levels: map<string, nat>, v: string)
    requires v in levels
  {
    exists p :: p in levels && v in Kids(tree, p) && levels[v] == levels[p] + 1
  }

  /** Every name recorded in `r` but not in `t`, outside `except`, sits one
      level below a recorded name that lists it. */
  ghost predicate ParentedNew(tree: seq<TreeEntry>, t: LevelTable, r: LevelTable, except: set<string>) {
    forall v {:trigger IsNew(t, r, v)} :: IsNew(t, r, v) && v !in except ==> Below(tree, r.levels, v)
  }

  /** Every recorded name but the root sits one level below a recorded name
      that lists it. */
  ghost predicate Rooted(tree: seq<TreeEntry>, levels: map<string, nat>, root: string) {
    forall v {:trigger Below(tree, levels, v)} :: v in levels && v != root ==> Below(tree, levels, v)
  }

  /** The invariant of the child loop of `setLevels(name, level)` once the
      first `i` children are visited. */
  ghost predicate VisitInv(tree: seq<TreeEntry>, t: LevelTable, r: LevelTable, name: string, level: nat, i: nat) {
    && Valid(r) && Extends(t, r)
    && name !in t.levels && name in r.levels && r.levels[name] == level
    && i <= |Kids(tree, name)|
    && (forall k :: 0 <= k < i ==> Kids(tree, name)[k] in r.levels)
    && ClosedNew(tree, t, r, {name}) && ParentedNew(tree, t, r, {name})
  }

  lemma ExtendsTrans(t: LevelTable, r: LevelTable, next: LevelTable)
    requires Extends(t, r) && Extends(r, next)
    ensures Extends(t, next)
  {
    assert next.order[..|t.order|] == next.order[..|r.order|][..|t.order|];
  }

  /** Closure of the names new since `t` survives a nested call. */
  lemma ClosedTrans(tree: seq<TreeEntry>, t: LevelTable, r: LevelTable, next: LevelTable, name: string)
    requires Extends(r, next)
    requires ClosedNew(tree, t, r, {name}) && ClosedNew(tree, r, next, {})
    ensures ClosedNew(tree, t, next, {name})
  {
  }

  /** The parent of every name new since `t` survives a nested call on a
      child `kid` of `name`, which itself hangs under `name`. */
  lemma ParentedTrans(tree: seq<TreeEntry>, t: LevelTable, r: LevelTable, next: LevelTable, name: string, level: nat, kid: string)
    requires Extends(r, next)
    requires name in r.levels && r.levels[name] == level && kid in Kids(tree, name)
    requires ParentedNew(tree, t, r, {name}) && ParentedNew(tree, r, next, {kid})
    requires kid in next.levels && (kid !in r.levels ==> next.levels[kid] == level + 1)
    ensures ParentedNew(tree, t, next, {name})
  {
    forall v | IsNew(t, next, v) && v != name ensures Below(tree, next.levels, v) {
      if v in r.levels {
        assert IsNew(t, r, v);
        var p :| p in r.levels && v in Kids(tree, p) && r.levels[v] == r.levels[p] + 1;
        assert p in next.levels && next.levels[p] == r.levels[p];
      } else if v == kid {
        assert name in next.levels && next.levels[name] == level;
      } else {
        assert IsNew(r, next, v);
      }
    }
  }

  /** One child visit inside `setLevels` keeps the loop's invariant. */
  lemma VisitKeeps(tree: seq<TreeEntry>, t: LevelTable, r: LevelTable, next: LevelTable, name: string, level: nat, i: nat)
    requires VisitInv(tree, t, r, name, level, i) && i < |Kids(tree, name)|
    requires Valid(next) && Extends(r, next)
    requires ClosedNew(tree, r, next, {}) && ParentedNew(tree, r, next, {Kids(tree, name)[i]})
    requires Kids(tree, name)[i] in next.levels
    requires Kids(tree, name)[i] !in r.levels ==> next.levels[Kids(tree, name)[i]] == level + 1
    ensures VisitInv(tree, t, next, name, level, i + 1)
  {
    var kids := Kids(tree, name);
    assert r.levels.Keys <= next.levels.Keys;
    ExtendsTrans(t, r, next);
    ClosedTrans(tree, t, r, next, name);
    ParentedTrans(tree, t, r, next, name, level, kids[i]);
    VisitedKept(kids, i, r.levels, next.levels);
  }

  /** The children visited so far stay visited. */
  lemma VisitedKept(kids: seq<string>, i: nat, before: map<string, nat>, after: map<string, nat>)
    requires i < |kids| && before.Keys <= after.Keys && kids[i] in after
    requires forall k :: 0 <= k < i ==> kids[k] in before
    ensures forall k :: 0 <= k < i + 1 ==> kids[k] in after
  {
  }

  /** Once every child is visited, every new name is closed, `name` included. */
  lemma VisitDone(tree: seq<TreeEntry>, t: LevelTable, r: LevelTable, name: string, level: nat)
    requires VisitInv(tree, t, r, name, level, |Kids(tree, name)|)
    ensures ClosedNew(tree, t, r, {})
  {
    forall v, c | v in r.levels && v !in t.levels && c in Kids(tree, v) ensures c in r.levels {
      if v == name {
        var k :| 0 <= k < |Kids(tree, name)| && Kids(tree, name)[k] == c;
      }
    }
  }

  /** The walk is depth first with one visited set for the whole walk: under
      {A: [B, C], B: [C]} the name C is met below B before A's own list
      reaches it, so it gets level 2, not 1, and the visit order is A, B, C. */
  lemma DepthFirstLevels(tree: seq<TreeEntry>)
    requires tree == [TreeEntry("A", Some([ChildLink("B", 1.0), ChildLink("C", 1.0)])),
                      TreeEntry("B", Some([ChildLink("C", 1.0)]))]
    ensures Walk(tree, "A", 0, LevelTable(map[], []))
         == LevelTable(map["A" := 0, "B" := 1, "C" := 2], ["A", "B", "C"])
  {
    assert Kids(tree, "A") == ["B", "C"];
    assert tree[1..] == [TreeEntry("B", Some([ChildLink("C", 1.0)]))];
    assert ChildrenOf(tree[1..], "B") == Some([ChildLink("C", 1.0)]);
    assert Kids(tree, "B") == ["C"];
    assert ChildrenOf(tree[1..][1..], "C") == None;
    assert Kids(tree, "C") == [];
    var t1 := LevelTable(map["A" := 0], ["A"]);
    var t2 := LevelTable(map["A" := 0, "B" := 1], ["A", "B"]);
    var t3 := LevelTable(map["A" := 0, "B" := 1, "C" := 2], ["A", "B", "C"]);
    assert Walk(tree, "C", 2, t2) == WalkKids(tree, "C", 2, t3, 0) == t3;
    assert WalkKids(tree, "B", 1, t3, 1) == t3;
    assert WalkKids(tree, "B", 1, t2, 0) == WalkKids(tree, "B", 1, t3, 1);
    assert "B" !in t1.levels && LevelTable(t1.levels["B" := 1], t1.order + ["B"]) == t2;
    assert Walk(tree, "B", 1, t1) == WalkKids(tree, "B", 1, t2, 0);
    assert Walk(tree, "C", 1, t3) == t3;
    assert WalkKids(tree, "A", 0, t3, 2) == t3;
    assert WalkKids(tree, "A", 0, t3, 1) == WalkKids(tree, "A", 0, t3, 2);
    assert WalkKids(tree, "A", 0, t1, 0) == WalkKids(tree, "A", 0, t3, 1);
    var empty := LevelTable(map[], []);
    assert LevelTable(empty.levels["A" := 0], empty.order + ["A"]) == t1;
  }

  /** What the walk promises: the table stays well formed and only grows;
      `name` is recorded, at `level` unless it was visited before, in which
      case nothing changes; every name the walk records has all its children
      recorded; and every name it records besides `name` sits one level below
      a recorded name that lists it. */
  lemma {:induction false} WalkProps(tree: seq<TreeEntry>, name: string, level: nat, t: LevelTable)
    requires Valid(t)
    ensures var r := Walk(tree, name, level, t);
      && Valid(r) && Extends(t, r)
      && (name in t.levels ==> r == t)
      && (name !in t.levels ==> r.levels[name] == level)
      && ClosedNew(tree, t, r, {}) && ParentedNew(tree, t, r, {name})
    decreases |(ChildNames(tree) + {name}) - t.levels.Keys|, 0
  {
    if name !in t.levels {
      var s := LevelTable(t.levels[name := level], t.order + [name]);
      assert s.order[..|t.order|] == t.order;
      Smaller(tree, name, t, s);
      WalkKidsProps(tree, t, name, level, s, 0);
      VisitDone(tree, t, Walk(tree, name, level, t), name, level);
    }
  }

  /** Walking the remaining children keeps the invariant of the child loop
      and ends with every child visited. */
  lemma {:induction false} WalkKidsProps(tree: seq<TreeEntry>, t: LevelTable, name: string, level: nat, r: LevelTable, i: nat)
    requires VisitInv(tree, t, r, name, level, i)
    ensures VisitInv(tree, t, WalkKids(tree, name, level, r, i), name, level, |Kids(tree, name)|)
    decreases |ChildNames(tree) - r.levels.Keys|, |Kids(tree, name)| - i + 2
  {
    if i < |Kids(tree, name)| {
      var next := Walk(tree, Kids(tree, name)[i], level + 1, r);
      KidStep(tree, t, name, level, r, i);
      WalkKidsProps(tree, t, name, level, next, i + 1);
    }
  }

  /** Visiting the `i`-th child keeps the invariant of the child loop, does
      not grow the walk's measure, and leaves the rest of the loop to walk. */
  lemma {:induction false} KidStep(tree: seq<TreeEntry>, t: LevelTable, name: string, level: nat, r: LevelTable, i: nat)
    requires VisitInv(tree, t, r, name, level, i) && i < |Kids(tree, name)|
    ensures var next := Walk(tree, Kids(tree, name)[i], level + 1, r);
      && VisitInv(tree, t, next, name, level, i + 1)
      && |ChildNames(tree) - next.levels.Keys| <= |ChildNames(tree) - r.levels.Keys|
      && WalkKids(tree, name, level, r, i) == WalkKids(tree, name, level, next, i + 1)
    decreases |ChildNames(tree) - r.levels.Keys|, |Kids(tree, name)| - i + 1
  {
    var kid := Kids(tree, name)[i];
    KidsAreChildNames(tree, name, kid);
    assert ChildNames(tree) + {kid} == ChildNames(tree);
    var next := Walk(tree, kid, level + 1, r);
    WalkProps(tree, kid, level + 1, r);
    VisitKeeps(tree, t, r, next, name, level, i);
    SubsetSize(ChildNames(tree) - next.levels.Keys, ChildNames(tree) - r.levels.Keys);
  }

  /** `setLevels(name, level)`: the recursive walk with its `forEach` over the
      children, updating the shared table in place of the `levels` map and
      the `visited` set. It computes exactly `Walk`. */
  method SetLevels(tree: seq<TreeEntry>, name: string, level: nat, t: LevelTable) returns (r: LevelTable)
    ensures r == Walk(tree, name, level, t)
    decreases |(ChildNames(tree) + {name}) - t.levels.Keys|
  {
    if name in t.levels {
      return t;
    }
    r := LevelTable(t.levels[name := level], t.order + [name]);
    var kids := Kids(tree, name);
    var i := 0;
    while i < |kids|
      invariant i <= |kids|
      invariant name in r.levels && t.levels.Keys <= r.levels.Keys
      invariant WalkKids(tree, name, level, r, i) == Walk(tree, name, level, t)
    {
      KidsAreChildNames(tree, name, kids[i]);
      assert ChildNames(tree) + {kids[i]} == ChildNames(tree);
      Smaller(tree, name, t, r);
      var next := SetLevels(tree, kids[i], level + 1, r);
      r := next;
      i := i + 1;
    }
  }

  /** The first pass of `calculateNodePositions`: the walk from the root with
      nothing visited. The root is at level 0, every recorded name has all
      its children recorded, and every other recorded name sits one level
      below a recorded name that lists it. */
  method CalculateLevels(tree: seq<TreeEntry>, root: string) returns (t: LevelTable)
    ensures t == Walk(tree, root, 0, LevelTable(map[], []))
    ensures Valid(t)
    ensures root in t.levels && t.levels[root] == 0
    ensures forall v, c :: v in t.levels && c in Kids(tree, v) ==> c in t.levels
    ensures Rooted(tree, t.levels, root)
  {
    var empty := LevelTable(map[], []);
    t := SetLevels(tree, root, 0, empty);
    WalkProps(tree, root, 0, empty);
    forall v | v in t.levels && v != root ensures Below(tree, t.levels, v) {
      assert IsNew(empty, t, v);
    }
  }

  /** `path` follows the tree's lists from its first name to its last. */
  ghost predicate IsPath(tree: seq<TreeEntry>, path: seq<string>) {
    |path| >= 1 && forall i :: 0 <= i < |path| - 1 ==> path[i + 1] in Kids(tree, path[i])
  }

  /** A set of names closed under the lists holds every name a path from
      one of its names reaches. */
  lemma {:induction false} ClosedHoldsPath(tree: seq<TreeEntry>, levels: map<string, nat>, path: seq<string>)
    requires forall v, c :: v in levels && c in Kids(tree, v) ==> c in levels
    requires IsPath(tree, path) && path[0] in levels
    ensures path[|path| - 1] in levels
    decreases |path|
  {
    if |path| > 1 {
      var init := path[..|path| - 1];
      assert IsPath(tree, init) by {
        forall i | 0 <= i < |init| - 1 ensures init[i + 1] in Kids(tree, init[i]) {
          assert init[i + 1] == path[i + 1] && init[i] == path[i];
        }
      }
      ClosedHoldsPath(tree, levels, init);
      assert path[|path| - 1] in Kids(tree, path[|path| - 2]);
    }
  }

  /** Every recorded name is reached from the root by a path whose length is
      its level: the level is the depth of the first path the walk took. */
  lemma {:induction false} RecordedIsReachable(tree: seq<TreeEntry>, root: string, levels: map<string, nat>, v: string)
    returns (path: seq<string>)
    requires root in levels && levels[root] == 0
    requires Rooted(tree, levels, root)
    requires v in levels
    ensures IsPath(tree, path) && path[0] == root && path[|path| - 1] == v && |path| == levels[v] + 1
    decreases levels[v]
  {
    if v == root {
      path := [root];
    } else {
      assert Below(tree, levels, v);
      var p :| p in levels && v in Kids(tree, p) && levels[v] == levels[p] + 1;
      var prefix := RecordedIsReachable(tree, root, levels, p);
      path := prefix + [v];
      forall i | 0 <= i < |path| - 1 ensures path[i + 1] in Kids(tree, path[i]) {
        if i < |prefix| - 1 {
          assert path[i + 1] == prefix[i + 1] && path[i] == prefix[i];
        }
      }
    }
  }

  /** The names that get a level are exactly those reachable from the root. */
  lemma LevelsAreReachable(tree: seq<TreeEntry>, root: string, t: LevelTable, v: string)
    requires root in t.levels && t.levels[root] == 0
    requires forall w, c :: w in t.levels && c in Kids(tree, w) ==> c in t.levels
    requires Rooted(tree, t.levels, root)
    ensures v in t.levels <==> exists path :: IsPath(tree, path) && path[0] == root && path[|path| - 1] == v
  {
    if v in t.levels {
      var path := RecordedIsReachable(tree, root, t.levels, v);
    }
    if exists path :: IsPath(tree, path) && path[0] == root && path[|path| - 1] == v {
      var path :| IsPath(tree, path) && path[0] == root && path[|path| - 1] == v;
      ClosedHoldsPath(tree, t.levels, path);
    }
  }

  /** The recorded names with their levels, in visit order. */
  function Slots(t: LevelTable): (r: seq<Slot>)
    requires Valid(t)
    ensures |r| == |t.order|
    ensures forall i :: 0 <= i < |r| ==> r[i] == Slot(t.order[i], t.levels[t.order[i]])
  {
    seq(|t.order|, i requires 0 <= i < |t.order| => Slot(t.order[i], t.levels[t.order[i]]))
  }

  /** A recorded name is listed in its slot, at its own level only. */
  lemma SlotsOf(t: LevelTable, n: string, l: nat)
    requires Valid(t)
    ensures Slot(n, l) in Slots(t) <==> n in t.levels && t.levels[n] == l
  {
    if n in t.levels {
      var i :| 0 <= i < |t.order| && t.order[i] == n;
      assert Slots(t)[i] == Slot(n, t.levels[n]);
    }
  }

  /** Every recorded name is placed. */
  lemma RecordedArePlaced(t: LevelTable, levelOrder: seq<nat>, groups: map<nat, seq<string>>, positions: map<string, Position>)
    requires Valid(t)
    requires forall l :: l in groups <==> l in levelOrder
    requires forall l: nat :: l in groups <==> NamesAt(Slots(t), l) != []
    requires forall l :: l in groups ==> groups[l] == NamesAt(Slots(t), l)
    requires forall n :: n in positions <==>
      exists k, i :: 0 <= k < |levelOrder| && 0 <= i < |groups[levelOrder[k]]| && groups[levelOrder[k]][i] == n
    ensures forall n :: n in t.levels ==> n in positions
  {
    forall n | n in t.levels ensures n in positions {
      var l := t.levels[n];
      NamesAtMembership(Slots(t), l);
      SlotsOf(t, n, l);
      assert n in NamesAt(Slots(t), l);
      var k :| 0 <= k < |levelOrder| && levelOrder[k] == l;
      var i :| 0 <= i < |groups[l]| && groups[l][i] == n;
    }
  }

  /** Every placed name is recorded, at its level's height and at its slot
      among the names of its level. */
  lemma PlacedAreRecorded(t: LevelTable, levelOrder: seq<nat>, groups: map<nat, seq<string>>, positions: map<string, Position>)
    requires Valid(t)
    requires forall l :: l in levelOrder ==> l in groups
    requires forall l :: l in groups ==> groups[l] == NamesAt(Slots(t), l)
    requires forall n :: n in positions ==>
      exists k, i :: 0 <= k < |levelOrder| && 0 <= i < |groups[levelOrder[k]]| && groups[levelOrder[k]][i] == n &&
        positions[n] == Position(XAt(|groups[levelOrder[k]]|, i), levelOrder[k] * LevelHeight)
    ensures forall n :: n in positions ==> n in t.levels && Placed(t, n, positions[n])
  {
    forall n | n in positions ensures n in t.levels && Placed(t, n, positions[n]) {
      var k, i :| 0 <= k < |levelOrder| && 0 <= i < |groups[levelOrder[k]]| && groups[levelOrder[k]][i] == n &&
        positions[n] == Position(XAt(|groups[levelOrder[k]]|, i), levelOrder[k] * LevelHeight);
      NamesAtMembership(Slots(t), levelOrder[k]);
      SlotsOf(t, n, levelOrder[k]);
      assert n in NamesAt(Slots(t), levelOrder[k]);
    }
  }

  /** `n` is at its level's height and at its slot among the names of its level. */
  ghost predicate Placed(t: LevelTable, n: string, pos: Position)
    requires Valid(t) && n in t.levels
  {
    var row := NamesAt(Slots(t), t.levels[n]);
    pos.y == t.levels[n] * LevelHeight &&
    exists i :: 0 <= i < |row| && row[i] == n && pos.x == XAt(|row|, i)
  }

  /** `calculateNodePositions`: the walk, then the grouping by level in visit
      order, then the placement. */
  method CalculateNodePositions(tree: seq<TreeEntry>, root: string) returns (t: LevelTable, positions: map<string, Position>)
    ensures t == Walk(tree, root, 0, LevelTable(map[], []))
    ensures Valid(t) && root in t.levels && t.levels[root] == 0
    ensures forall v, c :: v in t.levels && c in Kids(tree, v) ==> c in t.levels
    ensures Rooted(tree, t.levels, root)
    ensures forall n :: n in positions <==> n in t.levels
    ensures forall n :: n in positions ==> Placed(t, n, positions[n])
  {
    t := CalculateLevels(tree, root);
    var levelOrder, groups := GroupByLevel(Slots(t));
    positions := PlaceNodes(levelOrder, groups);
    RecordedArePlaced(t, levelOrder, groups, positions);
    PlacedAreRecorded(t, levelOrder, groups, positions);
  }

  /** An edge of the canvas; `source` and `target` are node ids and the label
      is the amount. */
  datatype FlowEdge = FlowEdge(id: string, source: string, target: string, amount: real)

  function EdgeId(parent: string, child: string): string {
    "edge-" + parent + "-" + child
  }

  /** The edges from `parent` to those of `links` that have a node. */
  function LinkEdges(parent: string, links: seq<ChildLink>, nodeIds: map<string, string>): seq<FlowEdge>
    requires parent in nodeIds
  {
    if links == [] then []
    else
      var last := links[|links| - 1];
      LinkEdges(parent, links[..|links| - 1], nodeIds) +
      (if last.child in nodeIds then [FlowEdge(EdgeId(parent, last.child), nodeIds[parent], nodeIds[last.child], last.amount)] else [])
  }

  /** The edges of every key that has a node and a list, in key order. */
  function TreeEdges(tree: seq<TreeEntry>, nodeIds: map<string, string>): seq<FlowEdge> {
    if tree == [] then []
    else
      var last := tree[|tree| - 1];
      TreeEdges(tree[..|tree| - 1], nodeIds) +
      (if last.parent in nodeIds && last.children.Some? then LinkEdges(last.parent, last.children.value, nodeIds) else [])
  }

  /** The edge loop of `fetchTreeData`, given the node id of every placed name.
      `fetchTreeData` numbers the nodes `node-0`, `node-1`, ... in the
      insertion order of the positions `Map`; the positions here are a Dafny
      `map`, which has no order, so the ids are taken as given: one per
      placed name. */
  method BuildEdges(tree: seq<TreeEntry>, nodeIds: map<string, string>) returns (edges: seq<FlowEdge>)
    ensures edges == TreeEdges(tree, nodeIds)
  {
    edges := [];
    var k := 0;
    while k < |tree|
      invariant 0 <= k <= |tree|
      invariant edges == TreeEdges(tree[..k], nodeIds)
    {
      var entry := tree[k];
      assert tree[..k + 1][..k] == tree[..k];
      if entry.parent in nodeIds && entry.children.Some? {
        var links := entry.children.value;
        var done := edges;
        var j := 0;
        while j < |links|
          invariant 0 <= j <= |links|
          invariant edges == done + LinkEdges(entry.parent, links[..j], nodeIds)
        {
          assert links[..j + 1][..j] == links[..j];
          if links[j].child in nodeIds {
            edges := edges + [FlowEdge(EdgeId(entry.parent, links[j].child), nodeIds[entry.parent], nodeIds[links[j].child], links[j].amount)];
          }
          j := j + 1;
        }
        assert links[..|links|] == links;
      }
      k := k + 1;
    }
    assert tree[..|tree|] == tree;
  }

  /** An edge from a list entry: its id names both ends, its ends are their nodes. */
  ghost predicate EdgeOf(e: FlowEdge, parent: string, link: ChildLink, nodeIds: map<string, string>) {
    parent in nodeIds && link.child in nodeIds &&
    e == FlowEdge(EdgeId(parent, link.child), nodeIds[parent], nodeIds[link.child], link.amount)
  }

  lemma {:induction false} LinkEdgesMembership(parent: string, links: seq<ChildLink>, nodeIds: map<string, string>)
    requires parent in nodeIds
    ensures forall e :: e in LinkEdges(parent, links, nodeIds) <==>
      exists j :: 0 <= j < |links| && EdgeOf(e, parent, links[j], nodeIds)
    decreases |links|
  {
    if links != [] {
      var init := links[..|links| - 1];
      LinkEdgesMembership(parent, init, nodeIds);
      forall e ensures e in LinkEdges(parent, links, nodeIds) <==>
        exists j :: 0 <= j < |links| && EdgeOf(e, parent, links[j], nodeIds)
      {
        if exists j :: 0 <= j < |links| && EdgeOf(e, parent, links[j], nodeIds) {
          var j :| 0 <= j < |links| && EdgeOf(e, parent, links[j], nodeIds);
          if j < |init| {
            assert init[j] == links[j];
          }
        }
        if exists j :: 0 <= j < |init| && EdgeOf(e, parent, init[j], nodeIds) {
          var j :| 0 <= j < |init| && EdgeOf(e, parent, init[j], nodeIds);
          assert links[j] == init[j];
        }
      }
    }
  }

  /** An edge is emitted exactly for a list entry whose two ends both have a
      node: its id is `edge-<parent>-<child>`, its ends are their node ids and
      its label the amount. */
  lemma {:induction false} TreeEdgesMembership(tree: seq<TreeEntry>, nodeIds: map<string, string>)
    ensures forall e :: e in TreeEdges(tree, nodeIds) <==>
      exists k, j :: 0 <= k < |tree| && tree[k].children.Some? && 0 <= j < |tree[k].children.value| &&
        EdgeOf(e, tree[k].parent, tree[k].children.value[j], nodeIds)
    decreases |tree|
  {
    if tree != [] {
      var init := tree[..|tree| - 1];
      var last := tree[|tree| - 1];
      TreeEdgesMembership(init, nodeIds);
      if last.parent in nodeIds && last.children.Some? {
        LinkEdgesMembership(last.parent, last.children.value, nodeIds);
      }
      forall e ensures e in TreeEdges(tree, nodeIds) <==>
        exists k, j :: 0 <= k < |tree| && tree[k].children.Some? && 0 <= j < |tree[k].children.value| &&
          EdgeOf(e, tree[k].parent, tree[k].children.value[j], nodeIds)
      {
        if exists k, j ::
          0 <= k < |tree| && tree[k].children.Some? && 0 <= j < |tree[k].children.value| &&
          EdgeOf(e, tree[k].parent, tree[k].children.value[j], nodeIds)
        {
          var k, j :| 0 <= k < |tree| && tree[k].children.Some? && 0 <= j < |tree[k].children.value| &&
            EdgeOf(e, tree[k].parent, tree[k].children.value[j], nodeIds);
          if k < |init| {
            assert init[k] == tree[k];
          }
        }
        if exists k, j ::
          0 <= k < |init| && init[k].children.Some? && 0 <= j < |init[k].children.value| &&
          EdgeOf(e, init[k].parent, init[k].children.value[j], nodeIds)
        {
          var k, j :| 0 <= k < |init| && init[k].children.Some? && 0 <= j < |init[k].children.value| &&
            EdgeOf(e, init[k].parent, init[k].children.value[j], nodeIds);
          assert tree[k] == init[k];
        }
      }
    }
  }
}
