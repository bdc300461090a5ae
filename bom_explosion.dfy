/** Stock-aware bill-of-materials explosion (`explode_bom_smart` and
    `flatten_tree_requirements_stock_aware` in server/controllers/forecasting.py).
    Only the part of a request that stock does not cover is exploded, and at
    every level of the tree only a component's own shortfall is passed on to
    its children. Repeated components are merged into one requirement. */
module BomExplosion {
  import opened Wrappers
  import opened Store
  import opened Tree

  /** One aggregated requirement: the summed quantity and the shallowest level. */
  datatype Entry = Entry(total: real, level: nat)

  /** The `requirements` dictionary: `order` is its key order (insertion order). */
  datatype Requirements = Requirements(order: seq<string>, entries: map<string, Entry>)

  const NoRequirements := Requirements([], map[])

  predicate Distinct(s: seq<string>) {
    forall i, j :: 0 <= i < j < |s| ==> s[i] != s[j]
  }

  /** The key order lists each key of the dictionary exactly once. */
  ghost predicate WellFormed(r: Requirements) {
    Distinct(r.order) && (forall n :: n in r.entries <==> n in r.order)
  }

  /** Stock on hand; a component that does not exist counts as 0. */
  function StockOf(components: map<string, Component>, name: string): real {
    if name in components then components[name].amount else 0.0
  }

  function Max0(x: real): real { if x > 0.0 then x else 0.0 }

  /** Adds a non-root need: summed onto an existing entry (keeping the smaller
      level) or added as a new key at the end. */
  function Record(r: Requirements, name: string, needed: real, level: nat): (r': Requirements)
    ensures WellFormed(r) ==> WellFormed(r')
    ensures name in r'.entries
  {
    if name in r.entries then
      var e := r.entries[name];
      Requirements(r.order, r.entries[name := Entry(e.total + needed, if level < e.level then level else e.level)])
    else
      Requirements(r.order + [name], r.entries[name := Entry(needed, level)])
  }

  /** The root's entry is assigned, replacing whatever was there. */
  function SetRoot(r: Requirements, name: string, quantity: real, level: nat): (r': Requirements)
    ensures WellFormed(r) ==> WellFormed(r')
    ensures name in r'.entries && r'.entries[name] == Entry(quantity, level)
  {
    if name in r.entries then Requirements(r.order, r.entries[name := Entry(quantity, level)])
    else Requirements(r.order + [name], r.entries[name := Entry(quantity, level)])
  }

  /** What a non-root node needs: the parent quantity times its edge amount. */
  function Needed(t: TreeNode, parentQty: real): real { parentQty * t.amount }

  /** What stock does not cover of that need; this drives the children. */
  function Shortfall(components: map<string, Component>, t: TreeNode, parentQty: real): real {
    Max0(Needed(t, parentQty) - StockOf(components, t.name))
  }

  /** `flatten_tree_requirements_stock_aware` on `t`, as a value. */
  function Flatten(components: map<string, Component>, t: TreeNode, parentQty: real,
                   reqs: Requirements, level: nat, isRoot: bool): Requirements
    decreases t, 1
  {
    if isRoot then
      FlattenChildren(components, t, 0, parentQty, SetRoot(reqs, t.name, parentQty, level), level + 1)
    else if Shortfall(components, t, parentQty) > 0.0 then
      FlattenChildren(components, t, 0, Shortfall(components, t, parentQty),
                      Record(reqs, t.name, Needed(t, parentQty), level), level + 1)
    else Record(reqs, t.name, Needed(t, parentQty), level)
  }

  /** The children of `t` from index `i` on, each with quantity `qty`. */
  function FlattenChildren(components: map<string, Component>, t: TreeNode, i: nat, qty: real,
                           reqs: Requirements, level: nat): Requirements
    decreases t, 0, |t.children| - i
  {
    if i >= |t.children| then reqs
    else FlattenChildren(components, t, i + 1, qty, Flatten(components, t.children[i], qty, reqs, level, false), level)
  }

  /** The recursion as the source writes it: a shared dictionary threaded
      through the calls and a loop over the children. */
  method FlattenRequirements(components: map<string, Component>, t: TreeNode, parentQty: real,
                             reqs: Requirements, level: nat, isRoot: bool) returns (r: Requirements)
    ensures r == Flatten(components, t, parentQty, reqs, level, isRoot)
    decreases t, 1
  {
    var childQty: real;
    if !isRoot {
      var needed := parentQty * t.amount;
      var shortfall := Max0(needed - StockOf(components, t.name));
      assert needed == Needed(t, parentQty) && shortfall == Shortfall(components, t, parentQty);
      r := Record(reqs, t.name, needed, level);
      if shortfall > 0.0 {
        childQty := shortfall;
      } else {
        return;
      }
    } else {
      r := SetRoot(reqs, t.name, parentQty, level);
      childQty := parentQty;
    }
    ghost var start := r;
    var i := 0;
    while i < |t.children|
      invariant 0 <= i <= |t.children|
      invariant FlattenChildren(components, t, i, childQty, r, level + 1)
             == FlattenChildren(components, t, 0, childQty, start, level + 1)
    {
      r := FlattenRequirements(components, t.children[i], childQty, r, level + 1, false);
      i := i + 1;
    }
  }

  // ---- Reference definition: the list of non-root visits ----

  /** One non-root node visited by the flattening: its name, the quantity it
      needs (parent quantity times edge amount) and its depth. */
  datatype Visit = Visit(name: string, needed: real, level: nat)

  /** The visits made at `t` and below, when `t` is reached with the parent
      quantity `parentQty`: the node itself, then, only if stock leaves a
      shortfall, its children with that shortfall as their quantity. */
  function NodeVisits(components: map<string, Component>, t: TreeNode, parentQty: real, level: nat): seq<Visit>
    decreases t, 1
  {
    [Visit(t.name, Needed(t, parentQty), level)]
      + (if Shortfall(components, t, parentQty) > 0.0
         then ChildVisits(components, t, 0, Shortfall(components, t, parentQty), level + 1)
         else [])
  }

  function ChildVisits(components: map<string, Component>, t: TreeNode, i: nat, qty: real, level: nat): seq<Visit>
    decreases t, 0, |t.children| - i
  {
    if i >= |t.children| then []
    else NodeVisits(components, t.children[i], qty, level) + ChildVisits(components, t, i + 1, qty, level)
  }

  /** Merging a list of visits into the dictionary one after another. */
  function Aggregate(r: Requirements, vs: seq<Visit>): Requirements
    decreases |vs|
  {
    if vs == [] then r else Aggregate(Record(r, vs[0].name, vs[0].needed, vs[0].level), vs[1..])
  }

  lemma {:induction false} AggregateAppend(r: Requirements, a: seq<Visit>, b: seq<Visit>)
    ensures Aggregate(r, a + b) == Aggregate(Aggregate(r, a), b)
    decreases |a|
  {
    if a != [] {
      var r1 := Record(r, a[0].name, a[0].needed, a[0].level);
      assert (a + b)[0] == a[0] && (a + b)[1..] == a[1..] + b;
      AggregateAppend(r1, a[1..], b);
      assert Aggregate(r, a + b) == Aggregate(r1, a[1..] + b);
      assert Aggregate(r, a) == Aggregate(r1, a[1..]);
    } else {
      assert a + b == b;
    }
  }

  /** The flattening merges exactly the visits of the reference definition,
      in order. */
  lemma {:induction false} FlattenIsAggregate(components: map<string, Component>, t: TreeNode, parentQty: real,
                                              reqs: Requirements, level: nat)
    ensures Flatten(components, t, parentQty, reqs, level, false) == Aggregate(reqs, NodeVisits(components, t, parentQty, level))
    decreases t, 1
  {
    var needed := Needed(t, parentQty);
    var shortfall := Shortfall(components, t, parentQty);
    var v := Visit(t.name, needed, level);
    var r := Record(reqs, t.name, needed, level);
    var rest := if shortfall > 0.0 then ChildVisits(components, t, 0, shortfall, level + 1) else [];
    AggregateAppend(reqs, [v], rest);
    assert Aggregate(reqs, [v]) == r by {
      assert [v][1..] == [];
    }
    if shortfall > 0.0 {
      ChildrenAreAggregate(components, t, 0, shortfall, r, level + 1);
    }
  }

  lemma {:induction false} ChildrenAreAggregate(components: map<string, Component>, t: TreeNode, i: nat, qty: real,
                                                reqs: Requirements, level: nat)
    ensures FlattenChildren(components, t, i, qty, reqs, level) == Aggregate(reqs, ChildVisits(components, t, i, qty, level))
    decreases t, 0, |t.children| - i
  {
    if i < |t.children| {
      var c := t.children[i];
      FlattenIsAggregate(components, c, qty, reqs, level);
      ChildrenAreAggregate(components, t, i + 1, qty, Flatten(components, c, qty, reqs, level, false), level);
      AggregateAppend(reqs, NodeVisits(components, c, qty, level), ChildVisits(components, t, i + 1, qty, level));
    }
  }

  /** The root call: the root entry is set to the requested quantity, then the
      children's visits are merged. */
  lemma RootFlattenIsAggregate(components: map<string, Component>, t: TreeNode, quantity: real)
    ensures Flatten(components, t, quantity, NoRequirements, 0, true)
         == Aggregate(SetRoot(NoRequirements, t.name, quantity, 0), ChildVisits(components, t, 0, quantity, 1))
  {
    ChildrenAreAggregate(components, t, 0, quantity, SetRoot(NoRequirements, t.name, quantity, 0), 1);
  }

  // ---- What the merged dictionary holds ----

  ghost predicate Occurs(vs: seq<Visit>, n: string) {
    exists i :: 0 <= i < |vs| && vs[i].name == n
  }

  /** The total need of `n` over a list of visits. */
  function SumNeeded(vs: seq<Visit>, n: string): real
    decreases |vs|
  {
    if vs == [] then 0.0 else (if vs[0].name == n then vs[0].needed else 0.0) + SumNeeded(vs[1..], n)
  }

  /** For a name not yet in the dictionary, merging a list of visits gives it
      an entry exactly when it is visited; the entry's total is the sum of its
      needs and its level the smallest level it was visited at. */
  lemma {:induction false} AggregateEntry(r: Requirements, vs: seq<Visit>, n: string)
    ensures var a := Aggregate(r, vs);
      && (n in a.entries <==> n in r.entries || Occurs(vs, n))
      && (n in a.entries ==>
            a.entries[n].total == (if n in r.entries then r.entries[n].total else 0.0) + SumNeeded(vs, n)
            && (n in r.entries ==> a.entries[n].level <= r.entries[n].level)
            && (forall i :: 0 <= i < |vs| && vs[i].name == n ==> a.entries[n].level <= vs[i].level)
            && ((n in r.entries && a.entries[n].level == r.entries[n].level)
                || (exists i :: 0 <= i < |vs| && vs[i].name == n && a.entries[n].level == vs[i].level)))
    decreases |vs|
  {
    if vs != [] {
      var v := vs[0];
      var r1 := Record(r, v.name, v.needed, v.level);
      AggregateEntry(r1, vs[1..], n);
      var a := Aggregate(r1, vs[1..]);
      assert a == Aggregate(r, vs);
      assert forall i :: 1 <= i < |vs| ==> vs[i] == vs[1..][i - 1];
      if Occurs(vs[1..], n) {
        var i :| 0 <= i < |vs[1..]| && vs[1..][i].name == n;
        assert vs[i + 1].name == n;
      }
      if n in a.entries && !(n in r.entries && a.entries[n].level == r.entries[n].level) {
        if n in r1.entries && a.entries[n].level == r1.entries[n].level {
          assert vs[0].name == n && a.entries[n].level == vs[0].level;
        } else {
          var i :| 0 <= i < |vs[1..]| && vs[1..][i].name == n && a.entries[n].level == vs[1..][i].level;
          assert vs[i + 1].name == n && a.entries[n].level == vs[i + 1].level;
        }
      }
    }
  }

  lemma {:induction false} AggregateKeepsWellFormed(r: Requirements, vs: seq<Visit>)
    requires WellFormed(r)
    ensures WellFormed(Aggregate(r, vs))
    decreases |vs|
  {
    if vs != [] {
      AggregateKeepsWellFormed(Record(r, vs[0].name, vs[0].needed, vs[0].level), vs[1..]);
    }
  }

  // ---- The child reservation rows ----

  /** One aggregated sub-component reservation of batch `id`. */
  function ChildRow(id: string, name: string, e: Entry, now: int): Reservation {
    Reservation(id, false, e.level, "Sub-component for manufacturing " + name, name, e.total,
                0, "system", None, Pending, now)
  }

  /** One row per key of the dictionary other than the root, in key order. */
  function ChildRows(order: seq<string>, entries: map<string, Entry>, root: string, id: string, now: int): (rows: seq<Reservation>)
    requires forall n :: n in order ==> n in entries
    ensures |rows| <= |order|
    ensures forall k :: 0 <= k < |rows| ==>
      rows[k].componentName in order && rows[k].componentName != root
      && rows[k] == ChildRow(id, rows[k].componentName, entries[rows[k].componentName], now)
    decreases |order|
  {
    if order == [] then []
    else
      ChildRows(order[..|order| - 1], entries, root, id, now)
        + (if order[|order| - 1] == root then [] else [ChildRow(id, order[|order| - 1], entries[order[|order| - 1]], now)])
  }

  predicate HasRowFor(rows: seq<Reservation>, n: string) {
    exists k :: 0 <= k < |rows| && rows[k].componentName == n
  }

  /** Every key other than the root gets a row. */
  lemma {:induction false} ChildRowsCover(order: seq<string>, entries: map<string, Entry>, root: string, id: string, now: int)
    requires forall n :: n in order ==> n in entries
    ensures forall n :: n in order && n != root ==> HasRowFor(ChildRows(order, entries, root, id, now), n)
    decreases |order|
  {
    if order != [] {
      var init := order[..|order| - 1];
      var last := order[|order| - 1];
      assert order == init + [last];
      ChildRowsCover(init, entries, root, id, now);
      var before := ChildRows(init, entries, root, id, now);
      var rows := ChildRows(order, entries, root, id, now);
      assert rows[..|before|] == before;
      forall n | n in order && n != root ensures HasRowFor(rows, n) {
        if n in init {
          var k :| 0 <= k < |before| && before[k].componentName == n;
          assert rows[k] == before[k];
        } else {
          assert n == last && rows[|rows| - 1].componentName == n;
        }
      }
    }
  }

  predicate DistinctNames(rows: seq<Reservation>) {
    forall j, k :: 0 <= j < k < |rows| ==> rows[j].componentName != rows[k].componentName
  }

  /** Distinct keys give rows for distinct components. */
  lemma {:induction false} ChildRowsDistinct(order: seq<string>, entries: map<string, Entry>, root: string, id: string, now: int)
    requires forall n :: n in order ==> n in entries
    requires Distinct(order)
    ensures DistinctNames(ChildRows(order, entries, root, id, now))
    decreases |order|
  {
    if order != [] {
      var init := order[..|order| - 1];
      var last := order[|order| - 1];
      assert Distinct(init) && last !in init;
      ChildRowsDistinct(init, entries, root, id, now);
      var before := ChildRows(init, entries, root, id, now);
      var rows := ChildRows(order, entries, root, id, now);
      if last != root {
        assert rows == before + [ChildRow(id, last, entries[last], now)];
        forall j | 0 <= j < |before| ensures before[j].componentName != last {
          assert before[j].componentName in init;
        }
      }
    }
  }

  /** The requirements the root call builds for a request of `quantity`. */
  function RootRequirements(components: map<string, Component>, tree: TreeNode, quantity: real): (r: Requirements)
    ensures WellFormed(r)
  {
    RootFlattenIsAggregate(components, tree, quantity);
    AggregateKeepsWellFormed(SetRoot(NoRequirements, tree.name, quantity, 0), ChildVisits(components, tree, 0, quantity, 1));
    Flatten(components, tree, quantity, NoRequirements, 0, true)
  }

  /** Nothing is exploded when the component is unknown, is a purchased
      `'component'`, or has enough stock. */
  predicate NoExplosion(components: map<string, Component>, name: string, quantity: real) {
    name !in components || components[name].kind == Basic || components[name].amount >= quantity
  }

  /** The reservation rows `explode_bom_smart` writes for batch `id`. */
  function ExplodeRows(components: map<string, Component>, rels: seq<Relationship>,
                       id: string, name: string, quantity: real, now: int): seq<Reservation>
  {
    if NoExplosion(components, name, quantity) then []
    else
      var tree := BuildTree(rels, name, {});
      if tree.children == [] then []
      else
        var r := RootRequirements(components, tree, quantity - components[name].amount);
        ChildRows(r.order, r.entries, name, id, now)
  }

  /** The visits whose aggregation gives the rows: the root's children reached
      with the quantity to manufacture. */
  function ExplosionVisits(components: map<string, Component>, rels: seq<Relationship>, name: string, quantity: real): seq<Visit>
    requires name in components
  {
    ChildVisits(components, BuildTree(rels, name, {}), 0, quantity - components[name].amount, 1)
  }

  lemma NoExplosionNoRows(components: map<string, Component>, rels: seq<Relationship>,
                          id: string, name: string, quantity: real, now: int)
    requires NoExplosion(components, name, quantity) || Outgoing(rels, name) == []
    ensures ExplodeRows(components, rels, id, name, quantity, now) == []
  {
  }

  /** What the root call's dictionary holds for a name other than the root:
      an entry exactly when the name is visited, whose total is the summed
      need and whose level is the shallowest visit. */
  lemma RootRequirementsEntry(components: map<string, Component>, tree: TreeNode, q: real, n: string)
    requires n != tree.name
    ensures var r := RootRequirements(components, tree, q);
      var vs := ChildVisits(components, tree, 0, q, 1);
      && (n in r.entries <==> Occurs(vs, n))
      && (n in r.entries ==>
            r.entries[n].total == SumNeeded(vs, n)
            && (forall i :: 0 <= i < |vs| && vs[i].name == n ==> r.entries[n].level <= vs[i].level)
            && (exists i :: 0 <= i < |vs| && vs[i].name == n && r.entries[n].level == vs[i].level))
  {
    RootFlattenIsAggregate(components, tree, q);
    AggregateEntry(SetRoot(NoRequirements, tree.name, q, 0), ChildVisits(components, tree, 0, q, 1), n);
  }

  /** Every row of an explosion belongs to batch `id` and is a pending,
      non-root, priority-0 row requested by "system", with no date, for a
      component other than the requested one; no component gets two rows. */
  lemma ExplodeRowsShape(components: map<string, Component>, rels: seq<Relationship>,
                         id: string, name: string, quantity: real, now: int)
    ensures var rows := ExplodeRows(components, rels, id, name, quantity, now);
      && (forall k :: 0 <= k < |rows| ==>
            && rows[k].id == id && !rows[k].isRoot && rows[k].priority == 0 && rows[k].status == Pending
            && rows[k].requestedBy == "system" && rows[k].neededByDate == None && rows[k].createdAt == now
            && rows[k].componentName != name)
      && (forall j, k :: 0 <= j < k < |rows| ==> rows[j].componentName != rows[k].componentName)
  {
    if !NoExplosion(components, name, quantity) {
      var tree := BuildTree(rels, name, {});
      if tree.children != [] {
        var r := RootRequirements(components, tree, quantity - components[name].amount);
        ChildRowsDistinct(r.order, r.entries, name, id, now);
      }
    }
  }

  /** Each row of an explosion carries the summed need of its component over
      the visits as its quantity, and the shallowest visit depth as its level. */
  lemma ExplodedRowQuantity(components: map<string, Component>, rels: seq<Relationship>,
                            id: string, name: string, quantity: real, now: int, k: int)
    requires !NoExplosion(components, name, quantity)
    requires 0 <= k < |ExplodeRows(components, rels, id, name, quantity, now)|
    ensures var row := ExplodeRows(components, rels, id, name, quantity, now)[k];
      var vs := ExplosionVisits(components, rels, name, quantity);
      && row.quantity == SumNeeded(vs, row.componentName)
      && (forall i :: 0 <= i < |vs| && vs[i].name == row.componentName ==> row.level <= vs[i].level)
      && (exists i :: 0 <= i < |vs| && vs[i].name == row.componentName && row.level == vs[i].level)
  {
    var tree := BuildTree(rels, name, {});
    var r := RootRequirements(components, tree, quantity - components[name].amount);
    var rows := ChildRows(r.order, r.entries, name, id, now);
    assert ExplodeRows(components, rels, id, name, quantity, now) == rows;
    RootRequirementsEntry(components, tree, quantity - components[name].amount, rows[k].componentName);
  }

  /** A component other than the requested one gets a row exactly when the
      flattening visits it. */
  lemma ExplodedComponentHasRow(components: map<string, Component>, rels: seq<Relationship>,
                                id: string, name: string, quantity: real, now: int, n: string)
    requires !NoExplosion(components, name, quantity) && n != name
    ensures Occurs(ExplosionVisits(components, rels, name, quantity), n)
        <==> HasRowFor(ExplodeRows(components, rels, id, name, quantity, now), n)
  {
    var tree := BuildTree(rels, name, {});
    var q := quantity - components[name].amount;
    if tree.children == [] {
      assert ExplodeRows(components, rels, id, name, quantity, now) == [];
      assert ExplosionVisits(components, rels, name, quantity) == [];
    } else {
      var r := RootRequirements(components, tree, q);
      var rows := ChildRows(r.order, r.entries, name, id, now);
      assert ExplodeRows(components, rels, id, name, quantity, now) == rows;
      RootRequirementsEntry(components, tree, q, n);
      ChildRowsCover(r.order, r.entries, name, id, now);
      if HasRowFor(rows, n) {
        var k :| 0 <= k < |rows| && rows[k].componentName == n;
        assert n in r.order;
      }
    }
  }

  /** The loop writing one reservation per aggregated component, skipping the
      requested component itself. */
  method WriteChildRows(reqs: Requirements, root: string, id: string, now: int) returns (rows: seq<Reservation>)
    requires forall n :: n in reqs.order ==> n in reqs.entries
    ensures rows == ChildRows(reqs.order, reqs.entries, root, id, now)
  {
    rows := [];
    var i := 0;
    while i < |reqs.order|
      invariant 0 <= i <= |reqs.order|
      invariant rows == ChildRows(reqs.order[..i], reqs.entries, root, id, now)
    {
      var n := reqs.order[i];
      assert reqs.order[..i + 1][..i] == reqs.order[..i];
      if n != root {
        rows := rows + [ChildRow(id, n, reqs.entries[n], now)];
      }
      i := i + 1;
    }
    assert reqs.order[..i] == reqs.order;
  }

  /** `explode_bom_smart`: appends the rows to the reservation table. */
  method ExplodeBom(db: Database, id: string, name: string, quantity: real, now: int)
    requires db.Valid()
    modifies db
    ensures db.Valid()
    ensures db.reservations == old(db.reservations) + ExplodeRows(db.components, db.relationships, id, name, quantity, now)
    ensures db.components == old(db.components) && db.relationships == old(db.relationships)
    ensures db.allocations == old(db.allocations) && db.purchases == old(db.purchases)
  {
    if name !in db.components || db.components[name].kind == Basic {
      return;
    }
    var stock := db.components[name].amount;
    if stock >= quantity {
      return;
    }
    var tree := BuildTree(db.relationships, name, {});
    if tree.children == [] {
      return;
    }
    var reqs := FlattenRequirements(db.components, tree, quantity - stock, NoRequirements, 0, true);
    assert reqs == RootRequirements(db.components, tree, quantity - stock);
    assert forall n :: n in reqs.order ==> n in reqs.entries;
    var rows := WriteChildRows(reqs, name, id, now);
    assert rows == ExplodeRows(db.components, db.relationships, id, name, quantity, now);
    db.reservations := db.reservations + rows;
  }
}
