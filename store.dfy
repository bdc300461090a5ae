/** The database tables the controllers read and write, held in memory: the
    component catalogue keyed by name, the relationship (bill-of-materials
    edge) table, and the reservation, allocation and purchase-requirement
    tables. Table order is the order rows come back from an unordered query. */
module Store {
  import opened Wrappers
  import opened Seqs

  /** `TypeOfComponent`: `'printer'`, `'group'` and `'component'`, the last
      being a purchased part that is never manufactured. These are the values
      of the request model in server/models.py. The database enum of the
      Prisma schema also knows an `assembly` value, which only the listing
      query in components.py:36 names; that schema is not part of this
      model, and a record of that type would behave as a non-`'component'`
      kind everywhere modelled here. */
  datatype TypeOfComponent = Printer | Group | Basic

  datatype Measure = Centimeters | Meters | Amount

  /** A component record; its name is the key of the catalogue. */
  datatype Component = Component(
    amount: real,
    measure: Measure,
    scannedBy: string,
    durationOfDevelopment: int,
    triggerMinAmount: real,
    supplier: string,
    cost: real,
    kind: TypeOfComponent,
    deliveryTime: Option<real>,
    lastScanned: int)

  /** `amount` units of `sub` go into one unit of `top`. */
  datatype Relationship = Relationship(top: string, sub: string, amount: real)

  /** Status of reservations and purchase requirements. */
  datatype Status = Pending | Other(text: string)

  /** One reservation row. `id` is the batch id shared by the root request and
      every sub-component row its explosion produced. Dates are timestamps. */
  datatype Reservation = Reservation(
    id: string,
    isRoot: bool,
    level: nat,
    title: string,
    componentName: string,
    quantity: real,
    priority: int,
    requestedBy: string,
    neededByDate: Option<int>,
    status: Status,
    createdAt: int)

  datatype Allocation = Allocation(
    reservationId: string,
    componentName: string,
    allocatedQuantity: real,
    shortfallQuantity: real,
    allocationOrder: nat)

  datatype PurchaseRequirement = PurchaseRequirement(
    componentName: string,
    requiredQuantity: real,
    neededByDate: int,
    status: Status)

  /** The unique constraint on (topComponent, subComponent). */
  predicate UniquePairs(rels: seq<Relationship>) {
    forall i, j :: 0 <= i < j < |rels| ==> rels[i].top != rels[j].top || rels[i].sub != rels[j].sub
  }

  predicate HasPair(rels: seq<Relationship>, top: string, sub: string) {
    exists r :: r in rels && r.top == top && r.sub == sub
  }

  /** The rows with `topComponent == top`, in table order. */
  function Outgoing(rels: seq<Relationship>, top: string): (r: seq<Relationship>)
    ensures forall e :: e in r <==> e in rels && e.top == top
  {
    Filter(rels, (e: Relationship) => e.top == top)
  }

  /** Deletes the row keyed (top, sub), if any. */
  function RemovePair(rels: seq<Relationship>, top: string, sub: string): (r: seq<Relationship>)
    ensures forall e :: e in r <==> e in rels && (e.top != top || e.sub != sub)
  {
    Filter(rels, (e: Relationship) => e.top != top || e.sub != sub)
  }

  /** Updates the amount of the row keyed (top, sub) in place. */
  function SetPairAmount(rels: seq<Relationship>, top: string, sub: string, amount: real): (r: seq<Relationship>)
    ensures |r| == |rels|
    ensures forall i :: 0 <= i < |rels| ==>
      r[i] == if rels[i].top == top && rels[i].sub == sub then rels[i].(amount := amount) else rels[i]
  {
    seq(|rels|, i requires 0 <= i < |rels| =>
      if rels[i].top == top && rels[i].sub == sub then rels[i].(amount := amount) else rels[i])
  }

  lemma RemovePairKeepsUnique(rels: seq<Relationship>, top: string, sub: string)
    requires UniquePairs(rels)
    ensures UniquePairs(RemovePair(rels, top, sub)) && !HasPair(RemovePair(rels, top, sub), top, sub)
  {
    var r := RemovePair(rels, top, sub);
    forall i, j | 0 <= i < j < |r| ensures r[i].top != r[j].top || r[i].sub != r[j].sub {
      FilterIndices(rels, (e: Relationship) => e.top != top || e.sub != sub, i, j);
    }
  }

  lemma SetPairAmountKeepsUnique(rels: seq<Relationship>, top: string, sub: string, amount: real)
    requires UniquePairs(rels)
    ensures UniquePairs(SetPairAmount(rels, top, sub, amount))
  {
  }

  lemma AppendNewPairKeepsUnique(rels: seq<Relationship>, e: Relationship)
    requires UniquePairs(rels) && !HasPair(rels, e.top, e.sub)
    ensures UniquePairs(rels + [e])
  {
    var r := rels + [e];
    forall i, j | 0 <= i < j < |r| ensures r[i].top != r[j].top || r[i].sub != r[j].sub {
      if j == |rels| {
        assert r[i] in rels;
      }
    }
  }

  /** At most one pending purchase requirement per component. */
  predicate AtMostOnePending(ps: seq<PurchaseRequirement>) {
    forall i, j :: 0 <= i < j < |ps| && ps[i].status == Pending && ps[j].status == Pending ==>
      ps[i].componentName != ps[j].componentName
  }

  /** The database. Handlers receive it and change its tables in place. */
  class Database {
    var components: map<string, Component>
    var relationships: seq<Relationship>
    var reservations: seq<Reservation>
    var allocations: seq<Allocation>
    var purchases: seq<PurchaseRequirement>

    /** The table constraints: relationship pairs are unique, and the
        purchase-requirement table holds at most one pending row per component. */
    ghost predicate Valid()
      reads this
    {
      UniquePairs(relationships) && AtMostOnePending(purchases)
    }

    constructor (components: map<string, Component>, relationships: seq<Relationship>)
      requires UniquePairs(relationships)
      ensures Valid()
      ensures this.components == components && this.relationships == relationships
      ensures reservations == [] && allocations == [] && purchases == []
    {
      this.components := components;
      this.relationships := relationships;
      reservations := [];
      allocations := [];
      purchases := [];
    }
  }
}
