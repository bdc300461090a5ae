/** Greedy stock allocation for one component (`allocate_component_stock` in
    server/controllers/forecasting.py): the demands on a component are put in
    a fixed order and each takes what it can of the stock still available. */
module StockAllocation {
  import opened Seqs
  import opened Store

  /** Root demands are ordered by priority, then creation time. */
  predicate RootBefore(a: Reservation, b: Reservation) {
    a.priority < b.priority || (a.priority == b.priority && a.createdAt <= b.createdAt)
  }

  /** Child demands are ordered by creation time. */
  predicate CreatedBefore(a: Reservation, b: Reservation) {
    a.createdAt <= b.createdAt
  }

  predicate IsRootDemand(d: Reservation) { d.isRoot }

  predicate IsChildDemand(d: Reservation) { !d.isRoot }

  function Roots(demands: seq<Reservation>): seq<Reservation> {
    Filter(demands, IsRootDemand)
  }

  function Children(demands: seq<Reservation>): seq<Reservation> {
    Filter(demands, IsChildDemand)
  }

  /** The order demands are served in: every root demand, sorted stably by
      (priority, createdAt), then every child demand sorted stably by createdAt. */
  function AllocationOrder(demands: seq<Reservation>): seq<Reservation> {
    Sort(Roots(demands), RootBefore) + Sort(Children(demands), CreatedBefore)
  }

  lemma RootBeforeIsPreorder()
    ensures IsTotalPreorder(RootBefore)
  {
  }

  lemma CreatedBeforeIsPreorder()
    ensures IsTotalPreorder(CreatedBefore)
  {
  }

  /** Every demand is served exactly once, every root demand before every
      child demand, roots in (priority, createdAt) order and children in
      createdAt order. */
  lemma AllocationOrderServesAll(demands: seq<Reservation>)
    ensures var o := AllocationOrder(demands);
      && multiset(o) == multiset(demands)
      && (forall i, j :: 0 <= i < j < |o| && !o[i].isRoot ==> !o[j].isRoot)
      && (forall i, j :: 0 <= i < j < |o| && o[j].isRoot ==> RootBefore(o[i], o[j]))
      && (forall i, j :: 0 <= i < j < |o| && !o[i].isRoot ==> CreatedBefore(o[i], o[j]))
  {
    var sr := Sort(Roots(demands), RootBefore);
    var sc := Sort(Children(demands), CreatedBefore);
    SortedParts(demands);
    PartitionMultiset(demands);
    SortedPartsRootness(demands);
    assert multiset(sr + sc) == multiset(sr) + multiset(sc);
    ConcatOrder(sr, sc);
  }

  /** Root demands with the priority and creation time of `d`. */
  function SameRootKey(d: Reservation): Reservation -> bool {
    (x: Reservation) => x.isRoot && x.priority == d.priority && x.createdAt == d.createdAt
  }

  /** Child demands with the creation time of `d`. */
  function SameChildKey(d: Reservation): Reservation -> bool {
    (x: Reservation) => !x.isRoot && x.createdAt == d.createdAt
  }

  /** The order is stable: root demands that tie on (priority, createdAt) are
      served in their input order, and so are child demands that tie on
      createdAt. */
  lemma AllocationOrderIsStable(demands: seq<Reservation>, d: Reservation)
    ensures Filter(AllocationOrder(demands), SameRootKey(d)) == Filter(demands, SameRootKey(d))
    ensures Filter(AllocationOrder(demands), SameChildKey(d)) == Filter(demands, SameChildKey(d))
  {
    SortedPartsRootness(demands);
    RootsStable(demands, d);
    ChildrenStable(demands, d);
  }

  lemma RootsStable(demands: seq<Reservation>, d: Reservation)
    requires forall k :: 0 <= k < |Sort(Children(demands), CreatedBefore)| ==> !Sort(Children(demands), CreatedBefore)[k].isRoot
    ensures Filter(AllocationOrder(demands), SameRootKey(d)) == Filter(demands, SameRootKey(d))
  {
    var sr := Sort(Roots(demands), RootBefore);
    var sc := Sort(Children(demands), CreatedBefore);
    var p := SameRootKey(d);
    FilterConcat(sr, sc, p);
    FilterAllOrNone(sc, p);
    assert Filter(sr + sc, p) == Filter(sr, p) + [];
    SortStable(Roots(demands), RootBefore, p);
    FilterOfFilter(demands, IsRootDemand, p);
  }

  lemma ChildrenStable(demands: seq<Reservation>, d: Reservation)
    requires forall k :: 0 <= k < |Sort(Roots(demands), RootBefore)| ==> Sort(Roots(demands), RootBefore)[k].isRoot
    ensures Filter(AllocationOrder(demands), SameChildKey(d)) == Filter(demands, SameChildKey(d))
  {
    var sr := Sort(Roots(demands), RootBefore);
    var sc := Sort(Children(demands), CreatedBefore);
    var p := SameChildKey(d);
    FilterConcat(sr, sc, p);
    FilterAllOrNone(sr, p);
    assert Filter(sr + sc, p) == [] + Filter(sc, p);
    SortStable(Children(demands), CreatedBefore, p);
    FilterOfFilter(demands, IsChildDemand, p);
  }

  lemma SortedParts(demands: seq<Reservation>)
    ensures SortedBy(Sort(Roots(demands), RootBefore), RootBefore)
    ensures SortedBy(Sort(Children(demands), CreatedBefore), CreatedBefore)
  {
    RootBeforeIsPreorder();
    CreatedBeforeIsPreorder();
  }

  /** Sorted roots followed by sorted children are in serving order. */
  lemma ConcatOrder(sr: seq<Reservation>, sc: seq<Reservation>)
    requires SortedBy(sr, RootBefore) && SortedBy(sc, CreatedBefore)
    requires forall k :: 0 <= k < |sr| ==> sr[k].isRoot
    requires forall k :: 0 <= k < |sc| ==> !sc[k].isRoot
    ensures var o := sr + sc;
      && (forall i, j :: 0 <= i < j < |o| && !o[i].isRoot ==> !o[j].isRoot)
      && (forall i, j :: 0 <= i < j < |o| && o[j].isRoot ==> RootBefore(o[i], o[j]))
      && (forall i, j :: 0 <= i < j < |o| && !o[i].isRoot ==> CreatedBefore(o[i], o[j]))
  {
    var o: seq<Reservation> := sr + sc;
    forall i: int, j: int | 0 <= i < j < |o| && !o[i].isRoot ensures !o[j].isRoot {
      assert i >= |sr|;
      assert o[j] == sc[j - |sr|];
    }
    forall i: int, j: int | 0 <= i < j < |o| && o[j].isRoot ensures RootBefore(o[i], o[j]) {
      assert j < |sr|;
      assert o[i] == sr[i] && o[j] == sr[j];
    }
    forall i: int, j: int | 0 <= i < j < |o| && !o[i].isRoot ensures CreatedBefore(o[i], o[j]) {
      assert i >= |sr|;
      assert o[i] == sc[i - |sr|] && o[j] == sc[j - |sr|];
    }
  }

  /** The sorted roots are all root demands and the sorted children none. */
  lemma SortedPartsRootness(demands: seq<Reservation>)
    ensures forall k :: 0 <= k < |Sort(Roots(demands), RootBefore)| ==> Sort(Roots(demands), RootBefore)[k].isRoot
    ensures forall k :: 0 <= k < |Sort(Children(demands), CreatedBefore)| ==> !Sort(Children(demands), CreatedBefore)[k].isRoot
  {
    var rs := Roots(demands);
    var cs := Children(demands);
    var sr := Sort(rs, RootBefore);
    var sc := Sort(cs, CreatedBefore);
    forall k | 0 <= k < |sr| ensures sr[k].isRoot {
      assert sr[k] in multiset(sr);
      assert sr[k] in rs;
    }
    forall k | 0 <= k < |sc| ensures !sc[k].isRoot {
      assert sc[k] in multiset(sc);
      assert sc[k] in cs;
    }
  }

  /** Partitioning by `isRoot` loses and adds nothing. */
  lemma {:induction false} PartitionMultiset(demands: seq<Reservation>)
    ensures multiset(Roots(demands)) + multiset(Children(demands)) == multiset(demands)
    decreases |demands|
  {
    if demands != [] {
      var init := demands[..|demands| - 1];
      var x := demands[|demands| - 1];
      assert demands == init + [x];
      PartitionMultiset(init);
      FilterAppend(init, x, IsRootDemand);
      FilterAppend(init, x, IsChildDemand);
    }
  }

  function Min(a: real, b: real): real { if a <= b then a else b }

  /** The allocation row of one demand served from `avail`; rows are
      numbered from 1. */
  function AllocationRow(d: Reservation, avail: real, name: string, served: nat): Allocation {
    Allocation(d.id, name, Min(d.quantity, avail), d.quantity - Min(d.quantity, avail), served + 1)
  }

  /** The rows written for `ordered` when `avail` is left and `served`
      demands were served before. */
  function Greedy(ordered: seq<Reservation>, avail: real, name: string, served: nat): (rows: seq<Allocation>)
    ensures |rows| == |ordered|
    decreases |ordered|
  {
    if ordered == [] then []
    else
      [AllocationRow(ordered[0], avail, name, served)]
        + Greedy(ordered[1..], avail - Min(ordered[0].quantity, avail), name, served + 1)
  }

  /** The stock left after serving `ordered`. */
  function Remaining(ordered: seq<Reservation>, avail: real): real
    decreases |ordered|
  {
    if ordered == [] then avail else Remaining(ordered[1..], avail - Min(ordered[0].quantity, avail))
  }

  function SumAllocated(rows: seq<Allocation>): real
    decreases |rows|
  {
    if rows == [] then 0.0 else rows[0].allocatedQuantity + SumAllocated(rows[1..])
  }

  function SumShortfall(rows: seq<Allocation>): real
    decreases |rows|
  {
    if rows == [] then 0.0 else rows[0].shortfallQuantity + SumShortfall(rows[1..])
  }

  function SumQuantity(ds: seq<Reservation>): real
    decreases |ds|
  {
    if ds == [] then 0.0 else ds[0].quantity + SumQuantity(ds[1..])
  }

  /** Stock is conserved: what is allocated plus what is left is what there
      was, and what is allocated plus the shortfalls is what was asked. */
  lemma {:induction false} GreedyConserves(ordered: seq<Reservation>, avail: real, name: string, served: nat)
    ensures var rows := Greedy(ordered, avail, name, served);
      && SumAllocated(rows) + Remaining(ordered, avail) == avail
      && SumAllocated(rows) + SumShortfall(rows) == SumQuantity(ordered)
    decreases |ordered|
  {
    if ordered != [] {
      GreedyConserves(ordered[1..], avail - Min(ordered[0].quantity, avail), name, served + 1);
    }
  }

  /** Once one demand has been served, the stock left is never negative. */
  lemma {:induction false} RemainingNonNegative(ordered: seq<Reservation>, avail: real)
    requires avail >= 0.0 || ordered != []
    ensures Remaining(ordered, avail) >= 0.0
    decreases |ordered|
  {
    if ordered != [] {
      RemainingNonNegative(ordered[1..], avail - Min(ordered[0].quantity, avail));
    }
  }

  /** Never more is allocated than there was in stock, when the stock was not
      negative to begin with. */
  lemma GreedyWithinStock(ordered: seq<Reservation>, avail: real, name: string, served: nat)
    requires avail >= 0.0
    ensures SumAllocated(Greedy(ordered, avail, name, served)) <= avail
  {
    GreedyConserves(ordered, avail, name, served);
    RemainingNonNegative(ordered, avail);
  }

  predicate NonNegativeQuantities(ds: seq<Reservation>) {
    forall k :: 0 <= k < |ds| ==> ds[k].quantity >= 0.0
  }

  lemma {:induction false} RemainingAppend(ordered: seq<Reservation>, d: Reservation, avail: real)
    ensures Remaining(ordered + [d], avail)
         == Remaining(ordered, avail) - Min(d.quantity, Remaining(ordered, avail))
    decreases |ordered|
  {
    if ordered != [] {
      assert (ordered + [d])[1..] == ordered[1..] + [d];
      RemainingAppend(ordered[1..], d, avail - Min(ordered[0].quantity, avail));
    }
  }

  /** Row `k` serves demand `k` from what the demands before it left. */
  lemma {:induction false} GreedyAt(ordered: seq<Reservation>, avail: real, name: string, served: nat, k: int)
    requires 0 <= k < |ordered|
    ensures Greedy(ordered, avail, name, served)[k]
         == AllocationRow(ordered[k], Remaining(ordered[..k], avail), name, served + k)
    decreases |ordered|
  {
    if k > 0 {
      var next := avail - Min(ordered[0].quantity, avail);
      GreedyAt(ordered[1..], next, name, served + 1, k - 1);
      assert ordered[1..][k - 1] == ordered[k];
      assert ordered[..k][1..] == ordered[1..][..k - 1];
      assert ordered[..k][0] == ordered[0];
    }
  }

  /** One row per demand, in order: it names the demand and the component,
      splits the demand's quantity into allocated and shortfall, takes the
      smaller of the demand and the stock left, and is numbered from 1. */
  lemma GreedyRows(ordered: seq<Reservation>, stock: real, name: string)
    ensures var rows := Greedy(ordered, stock, name, 0);
      forall k :: 0 <= k < |rows| ==>
        && rows[k].reservationId == ordered[k].id && rows[k].componentName == name
        && rows[k].allocatedQuantity == Min(ordered[k].quantity, Remaining(ordered[..k], stock))
        && rows[k].allocatedQuantity + rows[k].shortfallQuantity == ordered[k].quantity
        && rows[k].allocationOrder == k + 1
  {
    var rows := Greedy(ordered, stock, name, 0);
    forall k | 0 <= k < |rows|
      ensures rows[k] == AllocationRow(ordered[k], Remaining(ordered[..k], stock), name, k)
    {
      GreedyAt(ordered, stock, name, 0, k);
    }
  }

  /** With non-negative stock and demands, each demand gets between nothing
      and all it asked for, and its shortfall is not negative. */
  lemma GreedyBounds(ordered: seq<Reservation>, stock: real, name: string)
    requires stock >= 0.0 && NonNegativeQuantities(ordered)
    ensures var rows := Greedy(ordered, stock, name, 0);
      forall k :: 0 <= k < |rows| ==>
        0.0 <= rows[k].allocatedQuantity <= ordered[k].quantity && rows[k].shortfallQuantity >= 0.0
  {
    var rows := Greedy(ordered, stock, name, 0);
    forall k | 0 <= k < |rows|
      ensures 0.0 <= rows[k].allocatedQuantity <= ordered[k].quantity && rows[k].shortfallQuantity >= 0.0
    {
      GreedyAt(ordered, stock, name, 0, k);
      RemainingNonNegative(ordered[..k], stock);
    }
  }

  /** With non-negative demands, stock once used up stays used up. */
  lemma {:induction false} RemainingStaysEmpty(ordered: seq<Reservation>, avail: real, i: int, j: int)
    requires NonNegativeQuantities(ordered)
    requires 0 <= i <= j <= |ordered| && Remaining(ordered[..i], avail) == 0.0
    ensures Remaining(ordered[..j], avail) == 0.0
    decreases j - i
  {
    if i < j {
      RemainingAppend(ordered[..i], ordered[i], avail);
      assert ordered[..i + 1] == ordered[..i] + [ordered[i]];
      RemainingStaysEmpty(ordered, avail, i + 1, j);
    }
  }

  /** Earlier demands come first: once a demand is left short, every demand
      after it gets nothing. */
  lemma GreedyPriority(ordered: seq<Reservation>, stock: real, name: string, i: int, j: int)
    requires NonNegativeQuantities(ordered)
    requires 0 <= i < j < |ordered|
    requires Greedy(ordered, stock, name, 0)[i].shortfallQuantity > 0.0
    ensures Greedy(ordered, stock, name, 0)[j].allocatedQuantity == 0.0
  {
    GreedyAt(ordered, stock, name, 0, i);
    GreedyAt(ordered, stock, name, 0, j);
    RemainingAppend(ordered[..i], ordered[i], stock);
    assert ordered[..i + 1] == ordered[..i] + [ordered[i]];
    RemainingStaysEmpty(ordered, stock, i + 1, j);
  }

  lemma {:induction false} SumShortfallAppend(rows: seq<Allocation>, r: Allocation)
    ensures SumShortfall(rows + [r]) == SumShortfall(rows) + r.shortfallQuantity
    decreases |rows|
  {
    if rows != [] {
      assert (rows + [r])[1..] == rows[1..] + [r];
      SumShortfallAppend(rows[1..], r);
    }
  }

  /** The loop of `allocate_component_stock` over the ordered demands: the
      allocation rows it writes and the total shortfall it adds up. */
  method AllocateInOrder(ordered: seq<Reservation>, stock: real, name: string)
    returns (rows: seq<Allocation>, totalShortfall: real)
    ensures rows == Greedy(ordered, stock, name, 0)
    ensures totalShortfall == SumShortfall(rows)
  {
    rows := [];
    totalShortfall := 0.0;
    var available := stock;
    ghost var all := Greedy(ordered, stock, name, 0);
    var i := 0;
    while i < |ordered|
      invariant 0 <= i <= |ordered|
      invariant rows == all[..i]
      invariant available == Remaining(ordered[..i], stock)
      invariant totalShortfall == SumShortfall(rows)
    {
      var d := ordered[i];
      var taken := Min(d.quantity, available);
      var shortfall := d.quantity - taken;
      GreedyAt(ordered, stock, name, 0, i);
      RemainingAppend(ordered[..i], d, stock);
      assert ordered[..i + 1] == ordered[..i] + [d];
      SumShortfallAppend(rows, Allocation(d.id, name, taken, shortfall, i + 1));
      rows := rows + [Allocation(d.id, name, taken, shortfall, i + 1)];
      available := available - taken;
      totalShortfall := totalShortfall + shortfall;
      i := i + 1;
    }
  }
}
