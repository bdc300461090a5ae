/** Purchase requirements for shortfalls (`create_purchase_requirement_if_needed`
    in server/controllers/forecasting.py). A shortfall on a part that cannot be
    manufactured becomes, or is added to, the pending purchase requirement of
    that part. */
module Purchasing {
  import opened Wrappers
  import opened Seqs
  import opened Store

  /** A component can be manufactured when it has sub-components and is not a
      purchased `'component'`. */
  predicate CanBeManufactured(components: map<string, Component>, rels: seq<Relationship>, name: string)
    requires name in components
  {
    Outgoing(rels, name) != [] && components[name].kind != Basic
  }

  /** Thirty days, the default lead time when no demand names a date. */
  const DefaultLeadTime: int := 30 * 86400

  /** The earlier of two optional dates. */
  function Earlier(a: Option<int>, b: Option<int>): Option<int> {
    if b.None? then a else if a.None? || b.value < a.value then b else a
  }

  /** The earliest `neededByDate` among the demands, if any has one. */
  function EarliestDate(demands: seq<Reservation>): Option<int>
    decreases |demands|
  {
    if demands == [] then None
    else Earlier(EarliestDate(demands[..|demands| - 1]), demands[|demands| - 1].neededByDate)
  }

  /** `EarliestDate` is the minimum: absent exactly when no demand has a date,
      otherwise one of the dates and no later than any of them. */
  lemma {:induction false} EarliestDateIsMinimum(demands: seq<Reservation>)
    ensures EarliestDate(demands).None? <==> forall k :: 0 <= k < |demands| ==> demands[k].neededByDate.None?
    ensures EarliestDate(demands).Some? ==>
      && (exists k :: 0 <= k < |demands| && demands[k].neededByDate == EarliestDate(demands))
      && (forall k :: 0 <= k < |demands| && demands[k].neededByDate.Some? ==>
            EarliestDate(demands).value <= demands[k].neededByDate.value)
    decreases |demands|
  {
    if demands != [] {
      var init := demands[..|demands| - 1];
      EarliestDateIsMinimum(init);
      assert forall k :: 0 <= k < |init| ==> init[k] == demands[k];
      var e := EarliestDate(init);
      if e.Some? {
        var k :| 0 <= k < |init| && init[k].neededByDate == e;
        assert demands[k].neededByDate == e;
      }
    }
  }

  /** The loop over the demands that finds the earliest date. */
  method EarliestNeededBy(demands: seq<Reservation>) returns (earliest: Option<int>)
    ensures earliest == EarliestDate(demands)
  {
    earliest := None;
    var i := 0;
    while i < |demands|
      invariant 0 <= i <= |demands|
      invariant earliest == EarliestDate(demands[..i])
    {
      var d := demands[i].neededByDate;
      assert demands[..i + 1][..i] == demands[..i];
      if d.Some? && (earliest.None? || d.value < earliest.value) {
        earliest := d;
      }
      i := i + 1;
    }
    assert demands[..i] == demands;
  }

  /** The date a new or merged requirement is needed by: the earliest demand
      date, or `now` plus the default lead time. */
  function PurchaseDate(demands: seq<Reservation>, now: int): int {
    match EarliestDate(demands)
    case Some(d) => d
    case None => now + DefaultLeadTime
  }

  predicate IsPendingFor(p: PurchaseRequirement, name: string) {
    p.componentName == name && p.status == Pending
  }

  /** The first pending requirement of `name`, as `find_first` returns it. */
  function FirstPending(ps: seq<PurchaseRequirement>, name: string): (r: Option<nat>)
    ensures r.Some? ==> r.value < |ps| && IsPendingFor(ps[r.value], name)
    ensures r.Some? ==> forall k :: 0 <= k < r.value ==> !IsPendingFor(ps[k], name)
    ensures r.None? ==> forall k :: 0 <= k < |ps| ==> !IsPendingFor(ps[k], name)
    decreases |ps|
  {
    if ps == [] then None
    else if IsPendingFor(ps[0], name) then Some(0)
    else match FirstPending(ps[1..], name)
      case Some(i) => Some(i + 1)
      case None => None
  }

  /** Adds `qty` needed by `date` to the pending requirement of `name`: the
      first pending row gets the quantity added and keeps the earlier date;
      without one a pending row is appended. */
  function Upsert(ps: seq<PurchaseRequirement>, name: string, qty: real, date: int): seq<PurchaseRequirement> {
    match FirstPending(ps, name)
    case Some(i) =>
      ps[i := ps[i].(requiredQuantity := ps[i].requiredQuantity + qty,
                     neededByDate := if ps[i].neededByDate <= date then ps[i].neededByDate else date)]
    case None => ps + [PurchaseRequirement(name, qty, date, Pending)]
  }

  /** `create_purchase_requirement_if_needed` on the purchase table. */
  function PurchaseUpdate(components: map<string, Component>, rels: seq<Relationship>, ps: seq<PurchaseRequirement>,
                          name: string, shortfall: real, demands: seq<Reservation>, now: int): seq<PurchaseRequirement>
  {
    if name !in components || CanBeManufactured(components, rels, name) then ps
    else Upsert(ps, name, shortfall, PurchaseDate(demands, now))
  }

  /** The quantity pending for `name`, summed over its pending rows. */
  function PendingQuantity(ps: seq<PurchaseRequirement>, name: string): real
    decreases |ps|
  {
    if ps == [] then 0.0
    else PendingQuantity(ps[..|ps| - 1], name) + PendingShare(ps[|ps| - 1], name)
  }

  function PendingShare(p: PurchaseRequirement, name: string): real {
    if IsPendingFor(p, name) then p.requiredQuantity else 0.0
  }

  /** The rows that are not pending. */
  function NonPending(ps: seq<PurchaseRequirement>): seq<PurchaseRequirement> {
    Filter(ps, (p: PurchaseRequirement) => p.status != Pending)
  }

  lemma {:induction false} PendingQuantityUpdate(ps: seq<PurchaseRequirement>, i: int, x: PurchaseRequirement, name: string)
    requires 0 <= i < |ps|
    ensures PendingQuantity(ps[i := x], name) == PendingQuantity(ps, name) - PendingShare(ps[i], name) + PendingShare(x, name)
    decreases |ps|
  {
    var qs := ps[i := x];
    if i < |ps| - 1 {
      assert qs[..|qs| - 1] == ps[..|ps| - 1][i := x];
      PendingQuantityUpdate(ps[..|ps| - 1], i, x, name);
    } else {
      assert qs[..|qs| - 1] == ps[..|ps| - 1];
    }
  }

  lemma PendingQuantityAppend(ps: seq<PurchaseRequirement>, x: PurchaseRequirement, name: string)
    ensures PendingQuantity(ps + [x], name) == PendingQuantity(ps, name) + PendingShare(x, name)
  {
    assert (ps + [x])[..|ps|] == ps;
  }

  lemma {:induction false} NonPendingUpdate(ps: seq<PurchaseRequirement>, i: int, x: PurchaseRequirement)
    requires 0 <= i < |ps| && ps[i].status == Pending && x.status == Pending
    ensures NonPending(ps[i := x]) == NonPending(ps)
    decreases |ps|
  {
    var qs := ps[i := x];
    var p := (p: PurchaseRequirement) => p.status != Pending;
    assert ps == ps[..|ps| - 1] + [ps[|ps| - 1]];
    assert qs == qs[..|qs| - 1] + [qs[|qs| - 1]];
    FilterAppend(ps[..|ps| - 1], ps[|ps| - 1], p);
    FilterAppend(qs[..|qs| - 1], qs[|qs| - 1], p);
    if i < |ps| - 1 {
      assert qs[..|qs| - 1] == ps[..|ps| - 1][i := x];
      NonPendingUpdate(ps[..|ps| - 1], i, x);
    } else {
      assert qs[..|qs| - 1] == ps[..|ps| - 1];
    }
  }

  /** Merging a shortfall adds exactly that quantity to the pending total of
      its component, leaves every other component's pending total alone, and
      touches no row that is not pending. */
  lemma UpsertEffect(ps: seq<PurchaseRequirement>, name: string, qty: real, date: int)
    ensures PendingQuantity(Upsert(ps, name, qty, date), name) == PendingQuantity(ps, name) + qty
    ensures forall m :: m != name ==> PendingQuantity(Upsert(ps, name, qty, date), m) == PendingQuantity(ps, m)
    ensures NonPending(Upsert(ps, name, qty, date)) == NonPending(ps)
  {
    match FirstPending(ps, name)
    case Some(i) =>
      var x := ps[i].(requiredQuantity := ps[i].requiredQuantity + qty,
                      neededByDate := if ps[i].neededByDate <= date then ps[i].neededByDate else date);
      PendingQuantityUpdate(ps, i, x, name);
      forall m | m != name
        ensures PendingQuantity(Upsert(ps, name, qty, date), m) == PendingQuantity(ps, m)
      {
        PendingQuantityUpdate(ps, i, x, m);
      }
      NonPendingUpdate(ps, i, x);
    case None =>
      var x := PurchaseRequirement(name, qty, date, Pending);
      PendingQuantityAppend(ps, x, name);
      forall m | m != name
        ensures PendingQuantity(Upsert(ps, name, qty, date), m) == PendingQuantity(ps, m)
      {
        PendingQuantityAppend(ps, x, m);
      }
      FilterAppend(ps, x, (p: PurchaseRequirement) => p.status != Pending);
  }

  /** Merging keeps at most one pending row per component, and the pending
      row of the component is needed by the earlier of its old date and `date`. */
  lemma UpsertKeepsOnePending(ps: seq<PurchaseRequirement>, name: string, qty: real, date: int)
    requires AtMostOnePending(ps)
    ensures AtMostOnePending(Upsert(ps, name, qty, date))
    ensures var r := FirstPending(Upsert(ps, name, qty, date), name);
      && r.Some?
      && Upsert(ps, name, qty, date)[r.value].neededByDate
         == if FirstPending(ps, name).Some? && ps[FirstPending(ps, name).value].neededByDate <= date
            then ps[FirstPending(ps, name).value].neededByDate else date
  {
    var u := Upsert(ps, name, qty, date);
    match FirstPending(ps, name)
    case Some(i) =>
      assert forall k :: 0 <= k < |u| && k != i ==> u[k] == ps[k];
      assert IsPendingFor(u[i], name);
    case None =>
      assert forall k :: 0 <= k < |ps| ==> u[k] == ps[k];
      assert IsPendingFor(u[|ps|], name);
  }

  /** Only a shortfall on a part that exists and cannot be manufactured reaches
      the purchase table. */
  lemma PurchaseUpdateEffect(components: map<string, Component>, rels: seq<Relationship>, ps: seq<PurchaseRequirement>,
                             name: string, shortfall: real, demands: seq<Reservation>, now: int)
    ensures var u := PurchaseUpdate(components, rels, ps, name, shortfall, demands, now);
      && NonPending(u) == NonPending(ps)
      && (forall m :: m != name ==> PendingQuantity(u, m) == PendingQuantity(ps, m))
      && PendingQuantity(u, name)
         == PendingQuantity(ps, name)
            + (if name in components && !CanBeManufactured(components, rels, name) then shortfall else 0.0)
  {
    if name in components && !CanBeManufactured(components, rels, name) {
      UpsertEffect(ps, name, shortfall, PurchaseDate(demands, now));
    }
  }

  /** The purchase step keeps at most one pending row per component. */
  lemma PurchaseUpdateKeepsOnePending(components: map<string, Component>, rels: seq<Relationship>, ps: seq<PurchaseRequirement>,
                                      name: string, shortfall: real, demands: seq<Reservation>, now: int)
    requires AtMostOnePending(ps)
    ensures AtMostOnePending(PurchaseUpdate(components, rels, ps, name, shortfall, demands, now))
  {
    if name in components && !CanBeManufactured(components, rels, name) {
      UpsertKeepsOnePending(ps, name, shortfall, PurchaseDate(demands, now));
    }
  }

  /** The handler on the database. */
  method CreatePurchaseRequirementIfNeeded(db: Database, name: string, shortfall: real, demands: seq<Reservation>, now: int)
    requires db.Valid()
    modifies db
    ensures db.Valid()
    ensures db.purchases == PurchaseUpdate(old(db.components), old(db.relationships), old(db.purchases), name, shortfall, demands, now)
    ensures db.components == old(db.components) && db.relationships == old(db.relationships)
    ensures db.reservations == old(db.reservations) && db.allocations == old(db.allocations)
  {
    PurchaseUpdateKeepsOnePending(db.components, db.relationships, db.purchases, name, shortfall, demands, now);
    if name !in db.components {
      return;
    }
    var hasSubcomponents := Outgoing(db.relationships, name) != [];
    var canBeManufactured := hasSubcomponents && db.components[name].kind != Basic;
    if !canBeManufactured {
      var earliest := EarliestNeededBy(demands);
      var date := if earliest.None? then now + DefaultLeadTime else earliest.value;
      var existing := FirstPending(db.purchases, name);
      if existing.Some? {
        var i := existing.value;
        var p := db.purchases[i];
        db.purchases := db.purchases[i := p.(requiredQuantity := p.requiredQuantity + shortfall,
                                             neededByDate := if p.neededByDate <= date then p.neededByDate else date)];
      } else {
        db.purchases := db.purchases + [PurchaseRequirement(name, shortfall, date, Pending)];
      }
    }
  }
}
