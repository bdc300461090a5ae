/** Cost and duration roll-ups over the bill-of-materials tree
    (server/controllers/analytics.py). Every traversal is a post-order
    recursion: a node's children are rolled up first, each weighted by its
    edge amount, then the node's own value is added. */
module Analytics {
  import opened Wrappers
  import opened Seqs
  import opened Store
  import opened Tree

  /** The value a node contributes by itself, from its component record and
      whether it is a leaf of the tree. */
  type OwnValue = (Component, bool) -> real

  function NodeValue(components: map<string, Component>, f: OwnValue, t: TreeNode): real {
    if t.name in components then f(components[t.name], t.children == []) else 0.0
  }

  /** The weight of a child's roll-up in its parent's: the edge amount, or 1
      when edge amounts are ignored. */
  function EdgeFactor(child: TreeNode, scaled: bool): real {
    if scaled then child.amount else 1.0
  }

  /** Post-order roll-up: own value plus the children's roll-ups times their
      edge factors. */
  function RollUp(components: map<string, Component>, t: TreeNode, f: OwnValue, scaled: bool): real
    decreases t, 0
  {
    NodeValue(components, f, t) + RollUpChildren(components, t.children, f, scaled)
  }

  function RollUpChildren(components: map<string, Component>, cs: seq<TreeNode>, f: OwnValue, scaled: bool): real
    decreases cs
  {
    if cs == [] then 0.0
    else RollUpChildren(components, cs[..|cs| - 1], f, scaled) + Weighted(components, cs[|cs| - 1], f, scaled)
  }

  /** A child's roll-up times its edge factor. */
  function Weighted(components: map<string, Component>, c: TreeNode, f: OwnValue, scaled: bool): real
    decreases c, 1
  {
    RollUp(components, c, f, scaled) * EdgeFactor(c, scaled)
  }

  /** Every node of the tree names a stored component; a traversal that meets
      one that does not raises 404. */
  predicate Known(components: map<string, Component>, t: TreeNode)
    decreases t
  {
    t.name in components && KnownChildren(components, t.children)
  }

  predicate KnownChildren(components: map<string, Component>, cs: seq<TreeNode>)
    decreases cs
  {
    cs == [] || (KnownChildren(components, cs[..|cs| - 1]) && Known(components, cs[|cs| - 1]))
  }

  /** The component names of the tree in pre-order, one per occurrence. */
  function Names(t: TreeNode): (r: seq<string>)
    ensures |r| >= 1 && r[0] == t.name
    decreases t
  {
    [t.name] + ChildNames(t.children)
  }

  function ChildNames(cs: seq<TreeNode>): seq<string>
    decreases cs
  {
    if cs == [] then [] else ChildNames(cs[..|cs| - 1]) + Names(cs[|cs| - 1])
  }

  /** Known is exactly "every node names a stored component". */
  lemma {:induction false} KnownIffNamesStored(components: map<string, Component>, t: TreeNode)
    ensures Known(components, t) <==> forall n :: n in Names(t) ==> n in components
    decreases t
  {
    KnownChildrenIffNamesStored(components, t.children);
  }

  lemma {:induction false} KnownChildrenIffNamesStored(components: map<string, Component>, cs: seq<TreeNode>)
    ensures KnownChildren(components, cs) <==> forall n :: n in ChildNames(cs) ==> n in components
    decreases cs
  {
    if cs != [] {
      KnownChildrenIffNamesStored(components, cs[..|cs| - 1]);
      KnownIffNamesStored(components, cs[|cs| - 1]);
    }
  }

  /** One occurrence of a component in the tree, with the product of the edge
      amounts on the path to it (or 1 when edge amounts are ignored). */
  datatype Occurrence = Occurrence(name: string, multiplier: real, isLeaf: bool)

  /** The occurrences of the tree in pre-order: the reference reading of a
      roll-up as a sum over occurrences. */
  function Occurrences(t: TreeNode, scaled: bool): seq<Occurrence>
    decreases t
  {
    [Occurrence(t.name, 1.0, t.children == [])] + ChildOccurrences(t.children, scaled)
  }

  function ChildOccurrences(cs: seq<TreeNode>, scaled: bool): seq<Occurrence>
    decreases cs
  {
    if cs == [] then []
    else ChildOccurrences(cs[..|cs| - 1], scaled) + Scale(Occurrences(cs[|cs| - 1], scaled), EdgeFactor(cs[|cs| - 1], scaled))
  }

  /** Every multiplier times `k`. */
  function Scale(occs: seq<Occurrence>, k: real): (r: seq<Occurrence>)
    ensures |r| == |occs|
  {
    seq(|occs|, i requires 0 <= i < |occs| => occs[i].(multiplier := k * occs[i].multiplier))
  }

  /** Σ multiplier × own value over a list of occurrences. */
  function Total(components: map<string, Component>, occs: seq<Occurrence>, f: OwnValue): real {
    if occs == [] then 0.0
    else Total(components, occs[..|occs| - 1], f) + occs[|occs| - 1].multiplier * OccurrenceValue(components, f, occs[|occs| - 1])
  }

  function OccurrenceValue(components: map<string, Component>, f: OwnValue, o: Occurrence): real {
    if o.name in components then f(components[o.name], o.isLeaf) else 0.0
  }

  lemma {:induction false} TotalConcat(components: map<string, Component>, a: seq<Occurrence>, b: seq<Occurrence>, f: OwnValue)
    ensures Total(components, a + b, f) == Total(components, a, f) + Total(components, b, f)
    decreases |b|
  {
    if b == [] {
      assert a + b == a;
    } else {
      var init := b[..|b| - 1];
      assert (a + b)[..|a + b| - 1] == a + init;
      TotalConcat(components, a, init, f);
    }
  }

  lemma {:induction false} TotalScale(components: map<string, Component>, occs: seq<Occurrence>, k: real, f: OwnValue)
    ensures Total(components, Scale(occs, k), f) == k * Total(components, occs, f)
    decreases |occs|
  {
    if occs != [] {
      var init := occs[..|occs| - 1];
      var last := occs[|occs| - 1];
      forall i | 0 <= i < |init| ensures Scale(occs, k)[..|occs| - 1][i] == Scale(init, k)[i] {
        assert init[i] == occs[i];
      }
      assert Scale(occs, k)[..|occs| - 1] == Scale(init, k);
      TotalScale(components, init, k, f);
      var v := OccurrenceValue(components, f, last);
      assert OccurrenceValue(components, f, Scale(occs, k)[|occs| - 1]) == v;
      ScaleTerm(Total(components, init, f), last.multiplier, v, k);
    }
  }


  lemma {:induction false} ScaleTerm(sum: real, mult: real, v: real, k: real)
    ensures k * sum + (k * mult) * v == k * (sum + mult * v)
  {
  }

  /** A roll-up is the sum, over every occurrence of a component in the tree,
      of its multiplier times its own value. */
  lemma {:induction false} RollUpIsOccurrenceSum(components: map<string, Component>, t: TreeNode, f: OwnValue, scaled: bool)
    ensures RollUp(components, t, f, scaled) == Total(components, Occurrences(t, scaled), f)
    decreases t
  {
    var head := Occurrence(t.name, 1.0, t.children == []);
    var rest := ChildOccurrences(t.children, scaled);
    RollUpChildrenIsOccurrenceSum(components, t.children, f, scaled);
    TotalConcat(components, [head], rest, f);
    assert [head][..0] == [];
    assert OccurrenceValue(components, f, head) == NodeValue(components, f, t);
  }

  lemma {:induction false} RollUpChildrenIsOccurrenceSum(components: map<string, Component>, cs: seq<TreeNode>, f: OwnValue, scaled: bool)
    ensures RollUpChildren(components, cs, f, scaled) == Total(components, ChildOccurrences(cs, scaled), f)
    decreases cs
  {
    if cs != [] {
      var init := cs[..|cs| - 1];
      var last := cs[|cs| - 1];
      RollUpChildrenIsOccurrenceSum(components, init, f, scaled);
      RollUpIsOccurrenceSum(components, last, f, scaled);
      assert cs == init + [last];
      ChildStep(components, init, last, f, scaled);
    }
  }

  /** The inductive step of RollUpChildrenIsOccurrenceSum, for a last child. */
  lemma {:induction false} ChildStep(components: map<string, Component>, init: seq<TreeNode>, last: TreeNode, f: OwnValue, scaled: bool)
    requires RollUpChildren(components, init, f, scaled) == Total(components, ChildOccurrences(init, scaled), f)
    requires RollUp(components, last, f, scaled) == Total(components, Occurrences(last, scaled), f)
    ensures RollUpChildren(components, init + [last], f, scaled) == Total(components, ChildOccurrences(init + [last], scaled), f)
  {
    RollUpChildrenSnoc(components, init, last, f, scaled);
    ChildOccurrencesSplit(components, init, last, f, scaled);
    WeightedIsScaledTotal(components, last, f, scaled);
  }

  lemma {:induction false} ChildOccurrencesSplit(components: map<string, Component>, init: seq<TreeNode>, last: TreeNode, f: OwnValue, scaled: bool)
    ensures Total(components, ChildOccurrences(init + [last], scaled), f)
         == Total(components, ChildOccurrences(init, scaled), f) + Total(components, Scale(Occurrences(last, scaled), EdgeFactor(last, scaled)), f)
  {
    var cs := init + [last];
    assert cs[..|cs| - 1] == init;
    TotalConcat(components, ChildOccurrences(init, scaled), Scale(Occurrences(last, scaled), EdgeFactor(last, scaled)), f);
  }

  /** A child's weighted roll-up is the total of its occurrences scaled by its
      edge factor. */
  lemma {:induction false} WeightedIsScaledTotal(components: map<string, Component>, c: TreeNode, f: OwnValue, scaled: bool)
    requires RollUp(components, c, f, scaled) == Total(components, Occurrences(c, scaled), f)
    ensures Weighted(components, c, f, scaled) == Total(components, Scale(Occurrences(c, scaled), EdgeFactor(c, scaled)), f)
  {
    TotalScale(components, Occurrences(c, scaled), EdgeFactor(c, scaled), f);
  }

  predicate NonZeroEdge(c: TreeNode) { c.amount != 0.0 }

  /** Children whose edge amount is 0 add nothing to a scaled roll-up. */
  lemma {:induction false} ZeroEdgesAddNothing(components: map<string, Component>, cs: seq<TreeNode>, f: OwnValue)
    ensures RollUpChildren(components, cs, f, true) == RollUpChildren(components, Filter(cs, NonZeroEdge), f, true)
    decreases |cs|
  {
    if cs != [] {
      var init := cs[..|cs| - 1];
      var last := cs[|cs| - 1];
      assert cs == init + [last];
      ZeroEdgesAddNothing(components, init, f);
      ZeroEdgesStep(components, init, last, f);
    }
  }

  lemma {:induction false} ZeroEdgesStep(components: map<string, Component>, init: seq<TreeNode>, last: TreeNode, f: OwnValue)
    requires RollUpChildren(components, init, f, true) == RollUpChildren(components, Filter(init, NonZeroEdge), f, true)
    ensures RollUpChildren(components, init + [last], f, true)
         == RollUpChildren(components, Filter(init + [last], NonZeroEdge), f, true)
  {
    FilterAppend(init, last, NonZeroEdge);
    if NonZeroEdge(last) {
      ZeroEdgesKept(components, init, last, f);
    } else {
      ZeroEdgesDropped(components, init, last, f);
    }
  }

  lemma {:induction false} ZeroEdgesKept(components: map<string, Component>, init: seq<TreeNode>, last: TreeNode, f: OwnValue)
    requires RollUpChildren(components, init, f, true) == RollUpChildren(components, Filter(init, NonZeroEdge), f, true)
    requires Filter(init + [last], NonZeroEdge) == Filter(init, NonZeroEdge) + [last]
    ensures RollUpChildren(components, init + [last], f, true)
         == RollUpChildren(components, Filter(init + [last], NonZeroEdge), f, true)
  {
    var kept := Filter(init, NonZeroEdge);
    RollUpChildrenSnoc(components, init, last, f, true);
    RollUpChildrenSnoc(components, kept, last, f, true);
  }

  lemma {:induction false} ZeroEdgesDropped(components: map<string, Component>, init: seq<TreeNode>, last: TreeNode, f: OwnValue)
    requires RollUpChildren(components, init, f, true) == RollUpChildren(components, Filter(init, NonZeroEdge), f, true)
    requires Filter(init + [last], NonZeroEdge) == Filter(init, NonZeroEdge)
    requires last.amount == 0.0
    ensures RollUpChildren(components, init + [last], f, true)
         == RollUpChildren(components, Filter(init + [last], NonZeroEdge), f, true)
  {
    RollUpChildrenSnoc(components, init, last, f, true);
    ZeroWeight(components, last, f);
  }

  lemma {:induction false} RollUpChildrenSnoc(components: map<string, Component>, init: seq<TreeNode>, last: TreeNode, f: OwnValue, scaled: bool)
    ensures RollUpChildren(components, init + [last], f, scaled)
         == RollUpChildren(components, init, f, scaled) + Weighted(components, last, f, scaled)
  {
    var cs := init + [last];
    assert cs[..|cs| - 1] == init;
  }

  lemma {:induction false} ZeroWeight(components: map<string, Component>, c: TreeNode, f: OwnValue)
    requires c.amount == 0.0
    ensures Weighted(components, c, f, true) == 0.0
  {
  }


  /** A node's scaled roll-up is unchanged when its zero-amount children are
      dropped, as long as that does not turn it into a leaf. */
  lemma {:induction false} NodeIgnoresZeroEdges(components: map<string, Component>, t: TreeNode, f: OwnValue)
    requires (Filter(t.children, NonZeroEdge) == []) == (t.children == [])
    ensures RollUp(components, t, f, true)
         == RollUp(components, t.(children := Filter(t.children, NonZeroEdge)), f, true)
  {
    ZeroEdgesAddNothing(components, t.children, f);
  }

  // ---- total cost -------------------------------------------------------

  /** A node's own cost: material cost plus development hours at the hourly rate. */
  function CostOf(hourlyRate: real): OwnValue {
    (x: Component, isLeaf: bool) => x.cost + x.durationOfDevelopment as real * hourlyRate
  }

  /** `dfs_post_order_cost`. */
  function Cost(components: map<string, Component>, t: TreeNode, hourlyRate: real): real {
    RollUp(components, t, CostOf(hourlyRate), true)
  }

  /** `get_component_total_cost`: 400 when the tree cannot be built, 404 when a
      node of it is not a stored component, otherwise the root's cost times
      `amount`. */
  function TotalCost(components: map<string, Component>, rels: seq<Relationship>, topName: string,
                     hourlyRate: real, amount: real): Result<real>
  {
    var tree := GetTree(components, rels, topName);
    if tree.Err? then Err(400)
    else if !Known(components, tree.value) then Err(404)
    else Ok(Cost(components, tree.value, hourlyRate) * amount)
  }

  /** The total cost endpoint: 400 for an unknown top component, 404 when
      any node of its tree is not stored, and otherwise `amount` times the
      sum over every occurrence of a component of its edge-amount product
      times its own cost. */
  lemma {:induction false} TotalCostIsOccurrenceSum(components: map<string, Component>, rels: seq<Relationship>, topName: string,
                                 hourlyRate: real, amount: real)
    ensures TotalCost(components, rels, topName, hourlyRate, amount).Err? ==>
      TotalCost(components, rels, topName, hourlyRate, amount).status == (if topName !in components then 400 else 404)
    ensures TotalCost(components, rels, topName, hourlyRate, amount).Ok? <==>
      topName in components && forall n :: n in Names(BuildTree(rels, topName, {})) ==> n in components
    ensures TotalCost(components, rels, topName, hourlyRate, amount).Ok? ==>
      TotalCost(components, rels, topName, hourlyRate, amount).value
        == amount * Total(components, Occurrences(BuildTree(rels, topName, {}), true), CostOf(hourlyRate))
  {
    if topName in components {
      var t := GetTree(components, rels, topName).value;
      assert t == BuildTree(rels, topName, {});
      KnownIffNamesStored(components, t);
      RollUpIsOccurrenceSum(components, t, CostOf(hourlyRate), true);
    }
  }

  // ---- total duration ---------------------------------------------------

  /** Manufacturing time a node adds itself: its development time, except at a
      leaf, which only contributes a delivery time. */
  function ManufacturingOf(): OwnValue {
    (x: Component, isLeaf: bool) => if isLeaf then 0.0 else x.durationOfDevelopment as real
  }

  function DeliveryOf(components: map<string, Component>, name: string): real {
    if name in components && components[name].deliveryTime.Some? then components[name].deliveryTime.value else 0.0
  }

  function Max(a: real, b: real): real { if a >= b then a else b }

  /** The delivery half of `dfs_post_order_duration`: a leaf's own delivery
      time, otherwise the largest of the children's, starting from 0. */
  function Delivery(components: map<string, Component>, t: TreeNode): real
    decreases t
  {
    if t.children == [] then DeliveryOf(components, t.name) else MaxDelivery(components, t.children)
  }

  function MaxDelivery(components: map<string, Component>, cs: seq<TreeNode>): real
    decreases cs
  {
    if cs == [] then 0.0
    else Max(MaxDelivery(components, cs[..|cs| - 1]), Delivery(components, cs[|cs| - 1]))
  }

  datatype Durations = Durations(manufacturing: real, delivery: real)

  /** `dfs_post_order_duration`: (manufacturing time, delivery time). */
  function NodeDurations(components: map<string, Component>, t: TreeNode): Durations {
    Durations(RollUp(components, t, ManufacturingOf(), true), Delivery(components, t))
  }

  /** `get_component_total_duration`: the manufacturing time is scaled by
      `amount`, the delivery time is not. */
  function TotalDuration(components: map<string, Component>, rels: seq<Relationship>, topName: string, amount: real): Result<Durations>
  {
    var tree := GetTree(components, rels, topName);
    if tree.Err? then Err(400)
    else if !Known(components, tree.value) then Err(404)
    else Ok(Durations(NodeDurations(components, tree.value).manufacturing * amount, NodeDurations(components, tree.value).delivery))
  }

  /** Manufacturing time counts the development time of every inner
      occurrence, weighted by its edge-amount product, and nothing for leaves. */
  lemma {:induction false} ManufacturingIsInnerOccurrenceSum(components: map<string, Component>, t: TreeNode)
    ensures NodeDurations(components, t).manufacturing == Total(components, Occurrences(t, true), ManufacturingOf())
    ensures t.children == [] ==> NodeDurations(components, t).manufacturing == 0.0
  {
    RollUpIsOccurrenceSum(components, t, ManufacturingOf(), true);
  }

  /** The total duration endpoint fails like the total cost endpoint; on
      success the manufacturing time is `amount` times the edge-weighted sum
      of the inner occurrences' development times, and the delivery time is
      the largest leaf delivery time, unscaled. */
  lemma {:induction false} TotalDurationIsOccurrenceSum(components: map<string, Component>, rels: seq<Relationship>,
                                                         topName: string, amount: real)
    ensures TotalDuration(components, rels, topName, amount).Err? <==>
      TotalCost(components, rels, topName, 0.0, amount).Err?
    ensures TotalDuration(components, rels, topName, amount).Err? ==>
      TotalDuration(components, rels, topName, amount).status == (if topName !in components then 400 else 404)
    ensures TotalDuration(components, rels, topName, amount).Ok? ==>
      TotalDuration(components, rels, topName, amount).value.manufacturing
        == amount * Total(components, Occurrences(BuildTree(rels, topName, {}), true), ManufacturingOf())
    ensures TotalDuration(components, rels, topName, amount).Ok? ==>
      var d := TotalDuration(components, rels, topName, amount).value.delivery;
      forall n :: n in LeafNames(BuildTree(rels, topName, {})) ==> DeliveryOf(components, n) <= d
  {
    if topName in components {
      var t := GetTree(components, rels, topName).value;
      assert t == BuildTree(rels, topName, {});
      if Known(components, t) {
        ManufacturingIsInnerOccurrenceSum(components, t);
        DeliveryIsLargestLeaf(components, t);
      }
    }
  }

  /** The names at the leaves of the tree. */
  function LeafNames(t: TreeNode): seq<string>
    decreases t
  {
    if t.children == [] then [t.name] else ChildLeafNames(t.children)
  }

  function ChildLeafNames(cs: seq<TreeNode>): seq<string>
    decreases cs
  {
    if cs == [] then [] else ChildLeafNames(cs[..|cs| - 1]) + LeafNames(cs[|cs| - 1])
  }

  /** The delivery time is the largest delivery time of any leaf below the
      node (at least 0 for an inner node), and is attained by a leaf unless it
      is 0. */
  lemma {:induction false} DeliveryIsLargestLeaf(components: map<string, Component>, t: TreeNode)
    ensures forall n :: n in LeafNames(t) ==> DeliveryOf(components, n) <= Delivery(components, t)
    ensures t.children != [] ==> Delivery(components, t) >= 0.0
    ensures Delivery(components, t) == 0.0
         || exists n :: n in LeafNames(t) && DeliveryOf(components, n) == Delivery(components, t)
    decreases t
  {
    if t.children == [] {
      assert t.name in LeafNames(t);
    } else {
      MaxDeliveryIsLargestLeaf(components, t.children);
    }
  }

  lemma {:induction false} MaxDeliveryIsLargestLeaf(components: map<string, Component>, cs: seq<TreeNode>)
    ensures forall n :: n in ChildLeafNames(cs) ==> DeliveryOf(components, n) <= MaxDelivery(components, cs)
    ensures MaxDelivery(components, cs) >= 0.0
    ensures MaxDelivery(components, cs) == 0.0
         || exists n :: n in ChildLeafNames(cs) && DeliveryOf(components, n) == MaxDelivery(components, cs)
    decreases cs
  {
    if cs != [] {
      var init := cs[..|cs| - 1];
      var last := cs[|cs| - 1];
      MaxDeliveryIsLargestLeaf(components, init);
      DeliveryIsLargestLeaf(components, last);
      var names := ChildLeafNames(cs);
      assert names == ChildLeafNames(init) + LeafNames(last);
      if MaxDelivery(components, cs) != 0.0 {
        if MaxDelivery(components, cs) == MaxDelivery(components, init) {
          var n :| n in ChildLeafNames(init) && DeliveryOf(components, n) == MaxDelivery(components, init);
          assert n in names;
        } else {
          var n :| n in LeafNames(last) && DeliveryOf(components, n) == Delivery(components, last);
          assert n in names;
        }
      }
    }
  }

  // ---- detailed cost ----------------------------------------------------

  function MaterialOf(): OwnValue { (x: Component, isLeaf: bool) => x.cost }

  function LaborOf(hourlyRate: real): OwnValue {
    (x: Component, isLeaf: bool) => x.durationOfDevelopment as real * hourlyRate
  }

  function TimeOf(): OwnValue { (x: Component, isLeaf: bool) => x.durationOfDevelopment as real }

  /** The running totals of the detailed variant. */
  datatype Totals = Totals(material: real, labor: real, developmentTime: real)

  datatype CostBreakdown = CostBreakdown(
    totalCost: real,
    materialCost: real,
    laborCost: real,
    totalDevelopmentTime: real,
    hourlyRate: real,
    componentName: string)

  /** The traversal of `get_component_total_cost_detailed`: returns the node's
      cost (children weighted by edge amounts) and adds the node's and every
      descendant's material cost, labor cost and development time to the
      running totals once per occurrence, with no edge weighting. `ok` is
      false when some node is not a stored component. */
  method Accumulate(components: map<string, Component>, t: TreeNode, hourlyRate: real, acc: Totals)
    returns (ok: bool, cost: real, totals: Totals)
    ensures ok <==> Known(components, t)
    ensures ok ==> cost == Cost(components, t, hourlyRate)
    ensures ok ==> totals == Totals(acc.material + RollUp(components, t, MaterialOf(), false),
                                    acc.labor + RollUp(components, t, LaborOf(hourlyRate), false),
                                    acc.developmentTime + RollUp(components, t, TimeOf(), false))
    decreases t
  {
    var childrenCost := 0.0;
    totals := acc;
    var i := 0;
    while i < |t.children|
      invariant 0 <= i <= |t.children|
      invariant KnownChildren(components, t.children[..i])
      invariant childrenCost == RollUpChildren(components, t.children[..i], CostOf(hourlyRate), true)
      invariant totals == Totals(acc.material + RollUpChildren(components, t.children[..i], MaterialOf(), false),
                                 acc.labor + RollUpChildren(components, t.children[..i], LaborOf(hourlyRate), false),
                                 acc.developmentTime + RollUpChildren(components, t.children[..i], TimeOf(), false))
    {
      var child := t.children[i];
      assert t.children[..i + 1][..i] == t.children[..i];
      var childOk, childCost, childTotals := Accumulate(components, child, hourlyRate, totals);
      if !childOk {
        KnownChildrenPrefix(components, t.children, i);
        return false, 0.0, totals;
      }
      childrenCost := childrenCost + childCost * child.amount;
      totals := childTotals;
      i := i + 1;
    }
    assert t.children[..i] == t.children;
    if t.name !in components {
      return false, 0.0, totals;
    }
    var x := components[t.name];
    var materialCost := x.cost;
    var developmentTime := x.durationOfDevelopment as real;
    var laborCost := developmentTime * hourlyRate;
    totals := Totals(totals.material + materialCost, totals.labor + laborCost, totals.developmentTime + developmentTime);
    cost := childrenCost + materialCost + laborCost;
    ok := true;
  }

  /** A failing child makes its whole sibling list unknown. */
  lemma {:induction false} KnownChildrenPrefix(components: map<string, Component>, cs: seq<TreeNode>, i: int)
    requires 0 <= i < |cs| && !Known(components, cs[i])
    ensures !KnownChildren(components, cs)
    decreases |cs|
  {
    if i < |cs| - 1 {
      assert cs[..|cs| - 1][i] == cs[i];
      KnownChildrenPrefix(components, cs[..|cs| - 1], i);
    }
  }

  /** `get_component_total_cost_detailed`: every failure is reported as 400;
      the total cost is not scaled by an amount. */
  method DetailedCost(components: map<string, Component>, rels: seq<Relationship>, topName: string, hourlyRate: real)
    returns (r: Result<CostBreakdown>)
    ensures r.Err? <==> TotalCost(components, rels, topName, hourlyRate, 1.0).Err?
    ensures r.Err? ==> r.status == 400
    ensures r.Ok? ==> r.value.totalCost == TotalCost(components, rels, topName, hourlyRate, 1.0).value
    ensures r.Ok? ==> r.value.componentName == topName && r.value.hourlyRate == hourlyRate
    ensures r.Ok? ==> r.value.materialCost == RollUp(components, BuildTree(rels, topName, {}), MaterialOf(), false)
    ensures r.Ok? ==> r.value.laborCost == RollUp(components, BuildTree(rels, topName, {}), LaborOf(hourlyRate), false)
    ensures r.Ok? ==> r.value.totalDevelopmentTime == RollUp(components, BuildTree(rels, topName, {}), TimeOf(), false)
  {
    var tree := GetTree(components, rels, topName);
    if tree.Err? {
      return Err(400);
    }
    var ok, cost, totals := Accumulate(components, tree.value, hourlyRate, Totals(0.0, 0.0, 0.0));
    if !ok {
      return Err(400);
    }
    r := Ok(CostBreakdown(cost, totals.material, totals.labor, totals.developmentTime, hourlyRate, topName));
  }

  /** The breakdown totals count each occurrence once, whatever the edge
      amounts: every multiplier of the unweighted reading is 1. */
  lemma {:induction false} BreakdownIsUnweightedSum(components: map<string, Component>, t: TreeNode, f: OwnValue)
    ensures RollUp(components, t, f, false) == Total(components, Occurrences(t, false), f)
    ensures forall o :: o in Occurrences(t, false) ==> o.multiplier == 1.0
  {
    RollUpIsOccurrenceSum(components, t, f, false);
    UnscaledMultipliers(t);
  }

  lemma {:induction false} UnscaledMultipliers(t: TreeNode)
    ensures forall o :: o in Occurrences(t, false) ==> o.multiplier == 1.0
    decreases t
  {
    UnscaledChildMultipliers(t.children);
  }

  lemma {:induction false} UnscaledChildMultipliers(cs: seq<TreeNode>)
    ensures forall o :: o in ChildOccurrences(cs, false) ==> o.multiplier == 1.0
    decreases cs
  {
    if cs != [] {
      var last := cs[|cs| - 1];
      UnscaledChildMultipliers(cs[..|cs| - 1]);
      UnscaledMultipliers(last);
      var sc := Scale(Occurrences(last, false), 1.0);
      forall o | o in sc ensures o.multiplier == 1.0 {
        var i :| 0 <= i < |sc| && sc[i] == o;
        assert Occurrences(last, false)[i] in Occurrences(last, false);
      }
    }
  }
}
