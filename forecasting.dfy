/** The reservation handlers and the allocation run of
    server/controllers/forecasting.py, over the database tables. Every run of
    `process_allocations` rebuilds the allocation table and the pending
    purchase requirements from scratch; recalculating one component does not
    clear the purchase requirements first. */
module Forecasting {
  import opened Wrappers
  import opened Seqs
  import opened Store
  import opened BomExplosion
  import opened StockAllocation
  import opened Purchasing

  /** The two tables an allocation run writes. */
  datatype Tables = Tables(allocations: seq<Allocation>, purchases: seq<PurchaseRequirement>)

  /** The summed shortfall left after serving a component's demands. */
  function ShortfallTotal(components: map<string, Component>, name: string, demands: seq<Reservation>): real
    requires name in components
  {
    SumShortfall(Greedy(AllocationOrder(demands), components[name].amount, name, 0))
  }

  /** What one component's demands add to its pending purchase quantity. */
  function Contribution(components: map<string, Component>, rels: seq<Relationship>, name: string, demands: seq<Reservation>): real {
    if name in components && !CanBeManufactured(components, rels, name) && ShortfallTotal(components, name, demands) > 0.0
    then ShortfallTotal(components, name, demands)
    else 0.0
  }

  /** `allocate_component_stock` on the two tables: nothing for an unknown
      component, otherwise the greedy rows, and the total shortfall passed on
      to the purchase table when it is positive. */
  function AllocateStep(components: map<string, Component>, rels: seq<Relationship>, t: Tables,
                        name: string, demands: seq<Reservation>, now: int): Tables
  {
    if name !in components then t
    else Tables(
      t.allocations + Greedy(AllocationOrder(demands), components[name].amount, name, 0),
      if ShortfallTotal(components, name, demands) > 0.0
      then PurchaseUpdate(components, rels, t.purchases, name, ShortfallTotal(components, name, demands), demands, now)
      else t.purchases)
  }

  lemma AllocateStepPurchases(components: map<string, Component>, rels: seq<Relationship>, t: Tables,
                              name: string, demands: seq<Reservation>, now: int)
    ensures var u := AllocateStep(components, rels, t, name, demands, now).purchases;
      && NonPending(u) == NonPending(t.purchases)
      && (forall m :: m != name ==> PendingQuantity(u, m) == PendingQuantity(t.purchases, m))
      && PendingQuantity(u, name) == PendingQuantity(t.purchases, name) + Contribution(components, rels, name, demands)
      && (AtMostOnePending(t.purchases) ==> AtMostOnePending(u))
  {
    if name in components && ShortfallTotal(components, name, demands) > 0.0 {
      var s := ShortfallTotal(components, name, demands);
      PurchaseUpdateEffect(components, rels, t.purchases, name, s, demands, now);
      if !CanBeManufactured(components, rels, name) && AtMostOnePending(t.purchases) {
        UpsertKeepsOnePending(t.purchases, name, s, PurchaseDate(demands, now));
      }
    }
  }

  /** `allocate_component_stock` on the database. */
  method AllocateComponentStock(db: Database, name: string, demands: seq<Reservation>, now: int)
    requires db.Valid()
    modifies db
    ensures db.Valid()
    ensures Tables(db.allocations, db.purchases)
         == AllocateStep(old(db.components), old(db.relationships), Tables(old(db.allocations), old(db.purchases)), name, demands, now)
    ensures db.components == old(db.components) && db.relationships == old(db.relationships)
    ensures db.reservations == old(db.reservations)
  {
    if name !in db.components {
      return;
    }
    var ordered := AllocationOrder(demands);
    var rows, totalShortfall := AllocateInOrder(ordered, db.components[name].amount, name);
    db.allocations := db.allocations + rows;
    if totalShortfall > 0.0 {
      CreatePurchaseRequirementIfNeeded(db, name, totalShortfall, demands, now);
    }
  }

  // ---- process_allocations ----

  predicate ByPriority(a: Reservation, b: Reservation) { a.priority <= b.priority }

  function IsPendingReservation(): Reservation -> bool {
    (r: Reservation) => r.status == Pending
  }

  /** The pending reservations ordered by ascending priority. */
  function PendingByPriority(reservations: seq<Reservation>): seq<Reservation> {
    Sort(Filter(reservations, IsPendingReservation()), ByPriority)
  }

  function AddName(names: seq<string>, n: string): seq<string> {
    if n in names then names else names + [n]
  }

  /** The component names of the reservations, each once, in order of first
      appearance (the key order of the `component_demands` dictionary). */
  function GroupNames(rs: seq<Reservation>): seq<string>
    decreases |rs|
  {
    if rs == [] then [] else AddName(GroupNames(rs[..|rs| - 1]), rs[|rs| - 1].componentName)
  }

  lemma {:induction false} GroupNamesSpec(rs: seq<Reservation>)
    ensures Distinct(GroupNames(rs))
    ensures forall n :: n in GroupNames(rs) <==> exists k :: 0 <= k < |rs| && rs[k].componentName == n
    decreases |rs|
  {
    if rs != [] {
      var init := rs[..|rs| - 1];
      GroupNamesSpec(init);
      assert forall k :: 0 <= k < |init| ==> init[k] == rs[k];
      forall n | exists k :: 0 <= k < |rs| && rs[k].componentName == n
        ensures n in GroupNames(rs)
      {
        var k :| 0 <= k < |rs| && rs[k].componentName == n;
        if k < |init| {
          assert init[k].componentName == n;
        }
      }
    }
  }

  /** The demands on one component, in order (one list of `component_demands`). */
  function DemandsOf(rs: seq<Reservation>, n: string): seq<Reservation> {
    Filter(rs, (r: Reservation) => r.componentName == n)
  }

  /** Allocating the groups named in `names` one after another. */
  function AllocateGroups(components: map<string, Component>, rels: seq<Relationship>, t: Tables,
                          rs: seq<Reservation>, names: seq<string>, now: int): Tables
    decreases |names|
  {
    if names == [] then t
    else AllocateStep(components, rels, AllocateGroups(components, rels, t, rs, names[..|names| - 1], now),
                      names[|names| - 1], DemandsOf(rs, names[|names| - 1]), now)
  }

  /** `process_allocations`: the allocation table emptied, the pending purchase
      requirements deleted, then every component with pending demands
      allocated once. */
  function ProcessResult(components: map<string, Component>, rels: seq<Relationship>,
                         reservations: seq<Reservation>, purchases: seq<PurchaseRequirement>, now: int): Tables
  {
    AllocateGroups(components, rels, Tables([], NonPending(purchases)), PendingByPriority(reservations),
                   GroupNames(PendingByPriority(reservations)), now)
  }

  lemma {:induction false} AllocateGroupsPurchases(components: map<string, Component>, rels: seq<Relationship>, t: Tables,
                                                   rs: seq<Reservation>, names: seq<string>, now: int, n: string)
    requires Distinct(names)
    ensures var u := AllocateGroups(components, rels, t, rs, names, now).purchases;
      && NonPending(u) == NonPending(t.purchases)
      && PendingQuantity(u, n)
         == PendingQuantity(t.purchases, n) + (if n in names then Contribution(components, rels, n, DemandsOf(rs, n)) else 0.0)
      && (AtMostOnePending(t.purchases) ==> AtMostOnePending(u))
    decreases |names|
  {
    if names != [] {
      var init := names[..|names| - 1];
      var last := names[|names| - 1];
      assert names == init + [last];
      assert Distinct(init) && last !in init;
      AllocateGroupsPurchases(components, rels, t, rs, init, now, n);
      AllocateStepPurchases(components, rels, AllocateGroups(components, rels, t, rs, init, now), last, DemandsOf(rs, last), now);
    }
  }

  lemma {:induction false} NoPendingRows(ps: seq<PurchaseRequirement>, n: string)
    requires forall k :: 0 <= k < |ps| ==> ps[k].status != Pending
    ensures PendingQuantity(ps, n) == 0.0
    decreases |ps|
  {
    if ps != [] {
      NoPendingRows(ps[..|ps| - 1], n);
    }
  }

  lemma NoPendingLeft(ps: seq<PurchaseRequirement>, n: string)
    ensures PendingQuantity(NonPending(ps), n) == 0.0 && AtMostOnePending(NonPending(ps))
  {
    var f := NonPending(ps);
    assert forall k :: 0 <= k < |f| ==> f[k].status != Pending;
    NoPendingRows(f, n);
  }

  /** After an allocation run each component has at most one pending purchase
      requirement, holding exactly the shortfall of its pending demands when
      it cannot be manufactured and the shortfall is positive; the rows that
      are not pending are kept as they were. */
  lemma ProcessPurchases(components: map<string, Component>, rels: seq<Relationship>,
                         reservations: seq<Reservation>, purchases: seq<PurchaseRequirement>, now: int, n: string)
    ensures var u := ProcessResult(components, rels, reservations, purchases, now).purchases;
      var rs := PendingByPriority(reservations);
      && AtMostOnePending(u)
      && NonPending(u) == NonPending(purchases)
      && PendingQuantity(u, n) == (if n in GroupNames(rs) then Contribution(components, rels, n, DemandsOf(rs, n)) else 0.0)
  {
    var rs := PendingByPriority(reservations);
    GroupNamesSpec(rs);
    NoPendingLeft(purchases, n);
    FilterTwice(purchases, (p: PurchaseRequirement) => p.status != Pending);
    AllocateGroupsPurchases(components, rels, Tables([], NonPending(purchases)), rs, GroupNames(rs), now, n);
  }

  /** Running the allocation again on the tables it produced, with nothing
      else changed and the same clock, produces the same tables. */
  lemma ProcessIdempotent(components: map<string, Component>, rels: seq<Relationship>,
                          reservations: seq<Reservation>, purchases: seq<PurchaseRequirement>, now: int)
    ensures var once := ProcessResult(components, rels, reservations, purchases, now);
      ProcessResult(components, rels, reservations, once.purchases, now) == once
  {
    ProcessPurchases(components, rels, reservations, purchases, now, "");
  }

  function OfComponent(n: string): Allocation -> bool {
    (a: Allocation) => a.componentName == n
  }

  /** One allocation step adds rows for its own component only. */
  lemma StepAllocations(components: map<string, Component>, rels: seq<Relationship>, t: Tables,
                        name: string, demands: seq<Reservation>, now: int, n: string)
    ensures var u := AllocateStep(components, rels, t, name, demands, now).allocations;
      && Filter(u, OfComponent(n))
         == Filter(t.allocations, OfComponent(n))
            + (if n == name && name in components then Greedy(AllocationOrder(demands), components[name].amount, name, 0) else [])
      && Filter(u, NotOfComponent(name)) == Filter(t.allocations, NotOfComponent(name))
  {
    if name in components {
      var g := Greedy(AllocationOrder(demands), components[name].amount, name, 0);
      GreedyRows(AllocationOrder(demands), components[name].amount, name);
      FilterConcat(t.allocations, g, OfComponent(n));
      FilterAllOrNone(g, OfComponent(n));
      FilterConcat(t.allocations, g, NotOfComponent(name));
      FilterAllOrNone(g, NotOfComponent(name));
    }
  }

  lemma {:induction false} AllocateGroupsAllocations(components: map<string, Component>, rels: seq<Relationship>, t: Tables,
                                                     rs: seq<Reservation>, names: seq<string>, now: int, n: string)
    requires Distinct(names)
    ensures Filter(AllocateGroups(components, rels, t, rs, names, now).allocations, OfComponent(n))
         == Filter(t.allocations, OfComponent(n))
            + (if n in names && n in components
               then Greedy(AllocationOrder(DemandsOf(rs, n)), components[n].amount, n, 0) else [])
    decreases |names|
  {
    if names != [] {
      var init := names[..|names| - 1];
      var last := names[|names| - 1];
      assert names == init + [last];
      assert Distinct(init) && last !in init;
      AllocateGroupsAllocations(components, rels, t, rs, init, now, n);
      var prev := AllocateGroups(components, rels, t, rs, init, now);
      StepAllocations(components, rels, prev, last, DemandsOf(rs, last), now, n);
      var g := if n in components then Greedy(AllocationOrder(DemandsOf(rs, n)), components[n].amount, n, 0) else [];
      var before := Filter(t.allocations, OfComponent(n));
      if n == last {
        JoinRows(before, Filter(prev.allocations, OfComponent(n)),
                 Filter(AllocateGroups(components, rels, t, rs, names, now).allocations, OfComponent(n)), [], g);
        assert [] + g == g;
      } else {
        JoinRows(before, Filter(prev.allocations, OfComponent(n)),
                 Filter(AllocateGroups(components, rels, t, rs, names, now).allocations, OfComponent(n)),
                 if n in init then g else [], []);
        assert (if n in init then g else []) + [] == (if n in init then g else []);
      }
    } else {
      assert Filter(t.allocations, OfComponent(n)) + [] == Filter(t.allocations, OfComponent(n));
    }
  }

  lemma JoinRows(a: seq<Allocation>, b: seq<Allocation>, c: seq<Allocation>, x: seq<Allocation>, y: seq<Allocation>)
    requires b == a + x && c == b + y
    ensures c == a + (x + y)
  {
  }

  /** Each component with pending demands is allocated once: the rows of a
      component after a run are exactly the greedy rows for its demands. */
  lemma ProcessAllocationsOf(components: map<string, Component>, rels: seq<Relationship>,
                             reservations: seq<Reservation>, purchases: seq<PurchaseRequirement>, now: int, n: string)
    ensures var rs := PendingByPriority(reservations);
      Filter(ProcessResult(components, rels, reservations, purchases, now).allocations, OfComponent(n))
      == if n in GroupNames(rs) && n in components
         then Greedy(AllocationOrder(DemandsOf(rs, n)), components[n].amount, n, 0) else []
  {
    var rs := PendingByPriority(reservations);
    GroupNamesSpec(rs);
    AllocateGroupsAllocations(components, rels, Tables([], NonPending(purchases)), rs, GroupNames(rs), now, n);
  }

  /** Groups the pending reservations by component, as the dictionary of lists
      is built. */
  method GroupDemands(rs: seq<Reservation>) returns (names: seq<string>, groups: map<string, seq<Reservation>>)
    ensures names == GroupNames(rs)
    ensures forall n :: n in groups <==> n in names
    ensures forall n :: n in groups ==> groups[n] == DemandsOf(rs, n)
  {
    names := [];
    groups := map[];
    var i := 0;
    while i < |rs|
      invariant 0 <= i <= |rs|
      invariant names == GroupNames(rs[..i])
      invariant forall n :: n in groups <==> n in names
      invariant forall n :: n in groups ==> groups[n] == DemandsOf(rs[..i], n)
    {
      var r := rs[i];
      GroupStep(rs, i);
      if r.componentName !in groups {
        names := names + [r.componentName];
        groups := groups[r.componentName := [r]];
      } else {
        groups := groups[r.componentName := groups[r.componentName] + [r]];
      }
      i := i + 1;
    }
    assert rs[..i] == rs;
  }

  /** What one more reservation adds to the grouping. */
  lemma GroupStep(rs: seq<Reservation>, i: int)
    requires 0 <= i < |rs|
    ensures forall n :: DemandsOf(rs[..i + 1], n) == DemandsOf(rs[..i], n) + (if rs[i].componentName == n then [rs[i]] else [])
    ensures GroupNames(rs[..i + 1]) == AddName(GroupNames(rs[..i]), rs[i].componentName)
    ensures rs[i].componentName !in GroupNames(rs[..i]) ==> DemandsOf(rs[..i], rs[i].componentName) == []
  {
    var r := rs[i];
    assert rs[..i + 1][..i] == rs[..i];
    assert rs[..i + 1] == rs[..i] + [r];
    forall n ensures DemandsOf(rs[..i + 1], n) == DemandsOf(rs[..i], n) + (if r.componentName == n then [r] else []) {
      FilterAppend(rs[..i], r, (x: Reservation) => x.componentName == n);
    }
    GroupNamesSpec(rs[..i]);
    if r.componentName !in GroupNames(rs[..i]) {
      FilterAllOrNone(rs[..i], (x: Reservation) => x.componentName == r.componentName);
    }
  }

  /** `process_allocations` on the database. */
  method ProcessAllocations(db: Database, now: int)
    requires db.Valid()
    modifies db
    ensures db.Valid()
    ensures Tables(db.allocations, db.purchases)
         == ProcessResult(old(db.components), old(db.relationships), old(db.reservations), old(db.purchases), now)
    ensures db.components == old(db.components) && db.relationships == old(db.relationships)
    ensures db.reservations == old(db.reservations)
  {
    db.allocations := [];
    NoPendingLeft(db.purchases, "");
    db.purchases := NonPending(db.purchases);
    var rs := PendingByPriority(db.reservations);
    var names, groups := GroupDemands(rs);
    ghost var start := Tables(db.allocations, db.purchases);
    var i := 0;
    while i < |names|
      invariant 0 <= i <= |names|
      invariant db.Valid()
      invariant db.components == old(db.components) && db.relationships == old(db.relationships)
      invariant db.reservations == old(db.reservations)
      invariant Tables(db.allocations, db.purchases)
             == AllocateGroups(db.components, db.relationships, start, rs, names[..i], now)
    {
      AllocateGroupsSnoc(db.components, db.relationships, start, rs, names, i, now);
      AllocateComponentStock(db, names[i], groups[names[i]], now);
      i := i + 1;
    }
    assert names[..i] == names;
    assert start == Tables([], NonPending(old(db.purchases)));
    assert rs == PendingByPriority(old(db.reservations));
  }

  lemma AllocateGroupsSnoc(components: map<string, Component>, rels: seq<Relationship>, t: Tables,
                           rs: seq<Reservation>, names: seq<string>, i: int, now: int)
    requires 0 <= i < |names|
    ensures AllocateGroups(components, rels, t, rs, names[..i + 1], now)
         == AllocateStep(components, rels, AllocateGroups(components, rels, t, rs, names[..i], now), names[i], DemandsOf(rs, names[i]), now)
  {
    assert names[..i + 1][..i] == names[..i];
  }

  // ---- recalculate_allocations_for_component ----

  function IsPendingDemandOn(name: string): Reservation -> bool {
    (r: Reservation) => r.componentName == name && r.status == Pending
  }

  /** The pending demands on one component, by ascending priority. */
  function RecalculateDemands(reservations: seq<Reservation>, name: string): seq<Reservation> {
    Sort(Filter(reservations, IsPendingDemandOn(name)), ByPriority)
  }

  function NotOfComponent(n: string): Allocation -> bool {
    (a: Allocation) => a.componentName != n
  }

  /** `recalculate_allocations_for_component`: the component's allocation rows
      are deleted and its demands allocated again; pending purchase
      requirements are not cleared. */
  function RecalculateResult(components: map<string, Component>, rels: seq<Relationship>,
                             reservations: seq<Reservation>, t: Tables, name: string, now: int): Tables
  {
    AllocateStep(components, rels, Tables(Filter(t.allocations, NotOfComponent(name)), t.purchases),
                 name, RecalculateDemands(reservations, name), now)
  }

  /** Recalculating twice leaves the same allocation rows as recalculating
      once, but the pending purchase quantity of the component grows by its
      shortfall each time. */
  lemma RecalculateTwice(components: map<string, Component>, rels: seq<Relationship>,
                         reservations: seq<Reservation>, t: Tables, name: string, now: int)
    ensures var once := RecalculateResult(components, rels, reservations, t, name, now);
      var twice := RecalculateResult(components, rels, reservations, once, name, now);
      var c := Contribution(components, rels, name, RecalculateDemands(reservations, name));
      && twice.allocations == once.allocations
      && PendingQuantity(once.purchases, name) == PendingQuantity(t.purchases, name) + c
      && PendingQuantity(twice.purchases, name) == PendingQuantity(t.purchases, name) + 2.0 * c
  {
    var once := RecalculateResult(components, rels, reservations, t, name, now);
    var ds := RecalculateDemands(reservations, name);
    var t1 := Tables(Filter(t.allocations, NotOfComponent(name)), t.purchases);
    var t2 := Tables(Filter(once.allocations, NotOfComponent(name)), once.purchases);
    AllocateStepPurchases(components, rels, t1, name, ds, now);
    AllocateStepPurchases(components, rels, t2, name, ds, now);
    StepAllocations(components, rels, t1, name, ds, now, name);
    FilterTwice(t.allocations, NotOfComponent(name));
    assert t2.allocations == t1.allocations;
  }

  /** `recalculate_allocations_for_component` on the database. */
  method RecalculateAllocationsForComponent(db: Database, name: string, now: int)
    requires db.Valid()
    modifies db
    ensures db.Valid()
    ensures Tables(db.allocations, db.purchases)
         == RecalculateResult(old(db.components), old(db.relationships), old(db.reservations),
                              Tables(old(db.allocations), old(db.purchases)), name, now)
    ensures db.components == old(db.components) && db.relationships == old(db.relationships)
    ensures db.reservations == old(db.reservations)
  {
    db.allocations := Filter(db.allocations, NotOfComponent(name));
    var demands := RecalculateDemands(db.reservations, name);
    AllocateComponentStock(db, name, demands, now);
  }

  // ---- Reservation handlers ----

  /** `delete_reservation`: every row of the batch and every allocation of it
      are deleted. A missing batch raises 404 inside the `try`, which the
      catch-all handler reports as 500. */
  method DeleteReservation(db: Database, id: string) returns (r: Result<string>)
    requires db.Valid()
    modifies db
    ensures db.Valid()
    ensures r.Err? <==> forall k :: 0 <= k < |old(db.reservations)| ==> old(db.reservations)[k].id != id
    ensures r.Err? ==> r.status == 500 && db.reservations == old(db.reservations) && db.allocations == old(db.allocations)
    ensures r.Ok? ==> r.value == id
    ensures r.Ok? ==> db.reservations == Filter(old(db.reservations), (x: Reservation) => x.id != id)
    ensures r.Ok? ==> db.allocations == Filter(old(db.allocations), (a: Allocation) => a.reservationId != id)
    ensures db.components == old(db.components) && db.relationships == old(db.relationships)
    ensures db.purchases == old(db.purchases)
  {
    var found := false;
    var i := 0;
    while i < |db.reservations| && !found
      invariant 0 <= i <= |db.reservations|
      invariant found <==> exists k :: 0 <= k < i && db.reservations[k].id == id
    {
      found := db.reservations[i].id == id;
      i := i + 1;
    }
    if !found {
      return Err(500);
    }
    db.reservations := Filter(db.reservations, (x: Reservation) => x.id != id);
    db.allocations := Filter(db.allocations, (a: Allocation) => a.reservationId != id);
    r := Ok(id);
  }

  /** The query validation of `create_reservation`. */
  predicate ValidRequest(quantity: real, priority: int) {
    quantity > 0.0 && 1 <= priority <= 10
  }

  /** The root row of a new reservation batch. */
  function RootReservation(id: string, title: string, name: string, quantity: real, priority: int,
                           user: string, neededBy: Option<int>, now: int): Reservation {
    Reservation(id, true, 0, title, name, quantity, priority, user, neededBy, Pending, now)
  }

  /** `create_reservation` with the generated batch id `id`: a request failing
      validation is answered 422; otherwise the root row is written, its bill
      of materials exploded under the same id, and allocations are processed. */
  method CreateReservation(db: Database, title: string, name: string, quantity: real, priority: int,
                           neededBy: Option<int>, user: string, id: string, now: int) returns (r: Result<string>)
    requires db.Valid()
    modifies db
    ensures db.Valid()
    ensures r.Err? <==> !ValidRequest(quantity, priority)
    ensures r.Err? ==> r.status == 422 && unchanged(db)
    ensures r.Ok? ==> r.value == id
    ensures r.Ok? ==> (db.reservations
      == old(db.reservations) + [RootReservation(id, title, name, quantity, priority, user, neededBy, now)]
         + ExplodeRows(old(db.components), old(db.relationships), id, name, quantity, now))
    ensures r.Ok? ==> (Tables(db.allocations, db.purchases)
      == ProcessResult(old(db.components), old(db.relationships), db.reservations, old(db.purchases), now))
    ensures db.components == old(db.components) && db.relationships == old(db.relationships)
  {
    if !ValidRequest(quantity, priority) {
      return Err(422);
    }
    db.reservations := db.reservations + [RootReservation(id, title, name, quantity, priority, user, neededBy, now)];
    ExplodeBom(db, id, name, quantity, now);
    ProcessAllocations(db, now);
    r := Ok(id);
  }
}
