/** The hierarchical layout shared by both flowchart views: names are
    grouped by level in the order they were recorded, and the i-th of n
    names at level l is placed at x = -totalWidth/2 + i * (width + spacing)
    + width/2, y = l * levelHeight. Also the level colour palette. */
module Layout {
  import opened Seqs

  const NodeWidth := 160
  const LevelHeight := 200
  const MinNodeSpacing := 40

  /** The palette, one colour per level; the last one serves every level from 6 on. */
  const Colors: seq<string> := ["#4318FF", "#6B46C1", "#7C3AED", "#8B5CF6", "#A78BFA", "#C4B5FD", "#DDD6FE"]

  /** `getNodeColor`: `colors[Math.min(level, colors.length - 1)]`. */
  function NodeColor(level: nat): string {
    Colors[if level < |Colors| - 1 then level else |Colors| - 1]
  }

  /** Levels 0 to 6 get seven different colours; every deeper level shares
      the colour of level 6. */
  lemma NodeColorClamps(a: nat, b: nat)
    ensures a >= 6 ==> NodeColor(a) == NodeColor(6) == "#DDD6FE"
    ensures a <= 6 && b <= 6 && a != b ==> NodeColor(a) != NodeColor(b)
  {
  }

  datatype Position = Position(x: int, y: int)

  /** The x of the i-th of n nodes at one level, simplified. */
  function XAt(n: nat, i: nat): int {
    -100 * n + 100 + 200 * i
  }

  /** Neighbours at one level are `width + spacing` apart, and the row is
      centred: the first and last node are mirror images. */
  lemma RowSpacing(n: nat, i: nat)
    requires i + 1 < n
    ensures XAt(n, i + 1) - XAt(n, i) == NodeWidth + MinNodeSpacing
    ensures XAt(n, n - 1) == -XAt(n, 0)
  {
  }

  /** The sum of the first k x values of a row of n. */
  function RowSum(n: nat, k: nat): int {
    if k == 0 then 0 else RowSum(n, k - 1) + XAt(n, k - 1)
  }

  lemma {:induction false} RowSumClosed(n: nat, k: nat)
    ensures RowSum(n, k) == k * (100 - 100 * n) + 100 * k * (k - 1)
  {
    if k > 0 {
      RowSumClosed(n, k - 1);
      assert 100 * k * (k - 1) == 100 * (k - 1) * (k - 2) + 200 * (k - 1);
    }
  }

  /** A level's x values sum to 0: every row is centred on x = 0. */
  lemma RowCentred(n: nat)
    ensures RowSum(n, n) == 0
  {
    RowSumClosed(n, n);
    assert n * (100 - 100 * n) + 100 * n * (n - 1) == 0;
  }

  /** A name to place, with its level. */
  datatype Slot = Slot(name: string, level: nat)

  /** The names of `seen` at level `l`, in order. */
  function NamesAt(seen: seq<Slot>, l: nat): seq<string> {
    if seen == [] then []
    else
      var last := seen[|seen| - 1];
      NamesAt(seen[..|seen| - 1], l) + (if last.level == l then [last.name] else [])
  }

  /** A level's group holds exactly the names listed at that level. */
  lemma {:induction false} NamesAtMembership(seen: seq<Slot>, l: nat)
    ensures forall n :: n in NamesAt(seen, l) <==> Slot(n, l) in seen
    ensures |NamesAt(seen, l)| <= |seen|
    decreases |seen|
  {
    if seen != [] {
      var init := seen[..|seen| - 1];
      assert seen == init + [seen[|seen| - 1]];
      NamesAtMembership(init, l);
    }
  }

  /** `groups` and `levelOrder` are what grouping `seen` gives. */
  ghost predicate Grouped(seen: seq<Slot>, levelOrder: seq<nat>, groups: map<nat, seq<string>>) {
    && (forall l :: l in groups <==> l in levelOrder)
    && (forall l: nat :: l in groups <==> NamesAt(seen, l) != [])
    && (forall l :: l in groups ==> groups[l] == NamesAt(seen, l))
  }

  /** One step of the grouping loop keeps `Grouped`. */
  lemma GroupStep(seen: seq<Slot>, slot: Slot,
                  levelOrder: seq<nat>, groups: map<nat, seq<string>>,
                  levelOrder': seq<nat>, groups': map<nat, seq<string>>)
    requires Grouped(seen, levelOrder, groups)
    requires levelOrder' == if slot.level in groups then levelOrder else levelOrder + [slot.level]
    requires groups' == groups[slot.level := (if slot.level in groups then groups[slot.level] else []) + [slot.name]]
    ensures Grouped(seen + [slot], levelOrder', groups')
  {
    assert (seen + [slot])[..|seen|] == seen;
  }

  /** The grouping loop: each level, in the order first met, with its names in
      the order listed. */
  method GroupByLevel(slots: seq<Slot>) returns (levelOrder: seq<nat>, groups: map<nat, seq<string>>)
    ensures Grouped(slots, levelOrder, groups)
  {
    levelOrder := [];
    groups := map[];
    var i := 0;
    ghost var seen: seq<Slot> := [];
    while i < |slots|
      invariant 0 <= i <= |slots| && seen == slots[..i]
      invariant Grouped(seen, levelOrder, groups)
    {
      var slot := slots[i];
      var known := slot.level in groups;
      var levelOrder' := if known then levelOrder else levelOrder + [slot.level];
      var groups' := groups[slot.level := (if known then groups[slot.level] else []) + [slot.name]];
      GroupStep(seen, slot, levelOrder, groups, levelOrder', groups');
      levelOrder, groups, seen := levelOrder', groups', seen + [slot];
      i := i + 1;
    }
    assert seen == slots;
  }

  /** The placement loop: the i-th of the n names of level l goes to
      (XAt(n, i), l * levelHeight), computed as written. A name listed twice
      keeps its last placement; with distinct names every name keeps the
      placement of its one slot. */
  method PlaceNodes(levelOrder: seq<nat>, groups: map<nat, seq<string>>) returns (positions: map<string, Position>)
    requires forall l :: l in levelOrder ==> l in groups
    ensures forall n :: n in positions <==>
      exists k, i :: 0 <= k < |levelOrder| && 0 <= i < |groups[levelOrder[k]]| && groups[levelOrder[k]][i] == n
    ensures forall n :: n in positions ==>
      exists k, i :: 0 <= k < |levelOrder| && 0 <= i < |groups[levelOrder[k]]| && groups[levelOrder[k]][i] == n &&
        positions[n] == Position(XAt(|groups[levelOrder[k]]|, i), levelOrder[k] * LevelHeight)
  {
    positions := map[];
    var k := 0;
    while k < |levelOrder|
      invariant 0 <= k <= |levelOrder|
      invariant forall n :: n in positions <==>
        exists k', i :: 0 <= k' < k && 0 <= i < |groups[levelOrder[k']]| && groups[levelOrder[k']][i] == n
      invariant forall n :: n in positions ==>
        exists k', i :: 0 <= k' < k && 0 <= i < |groups[levelOrder[k']]| && groups[levelOrder[k']][i] == n &&
          positions[n] == Position(XAt(|groups[levelOrder[k']]|, i), levelOrder[k'] * LevelHeight)
    {
      var level := levelOrder[k];
      var nodes := groups[level];
      var nodeCount := |nodes|;
      var totalWidth := nodeCount * NodeWidth + (nodeCount - 1) * MinNodeSpacing;
      var startX := -totalWidth / 2;
      var index := 0;
      while index < nodeCount
        invariant 0 <= index <= nodeCount
        invariant forall n :: n in positions <==>
          (exists k', i :: 0 <= k' < k && 0 <= i < |groups[levelOrder[k']]| && groups[levelOrder[k']][i] == n) ||
          (exists i :: 0 <= i < index && nodes[i] == n)
        invariant forall n :: n in positions ==>
          (exists k', i :: 0 <= k' < k && 0 <= i < |groups[levelOrder[k']]| && groups[levelOrder[k']][i] == n &&
            positions[n] == Position(XAt(|groups[levelOrder[k']]|, i), levelOrder[k'] * LevelHeight)) ||
          (exists i :: 0 <= i < index && nodes[i] == n && positions[n] == Position(XAt(nodeCount, i), level * LevelHeight))
      {
        assert startX == -100 * nodeCount + 20;
        var x := startX + index * (NodeWidth + MinNodeSpacing) + NodeWidth / 2;
        positions := positions[nodes[index] := Position(x, level * LevelHeight)];
        index := index + 1;
      }
      k := k + 1;
    }
  }
}
