/** The component handlers: create, update and delete on the catalogue and
    the edge table, step by step, including the compensating delete of a new
    component whose placeholder edge cannot be stored. */
module Components {
  import opened Wrappers
  import opened Seqs
  import opened Store
  import Relationships

  /** `ComponentCreate`: a new catalogue record under its name. */
  datatype ComponentCreate = ComponentCreate(
    name: string,
    amount: real,
    measure: Measure,
    scannedBy: string,
    durationOfDevelopment: int,
    triggerMinAmount: real,
    supplier: string,
    cost: real,
    kind: TypeOfComponent)

  /** `ComponentUpdate`: every field may be left out (`None`). */
  datatype ComponentUpdate = ComponentUpdate(
    amount: Option<real>,
    measure: Option<Measure>,
    scannedBy: Option<string>,
    durationOfDevelopment: Option<int>,
    triggerMinAmount: Option<real>,
    supplier: Option<string>,
    cost: Option<real>,
    kind: Option<TypeOfComponent>)

  /** The two tables these handlers change. */
  datatype Tables = Tables(components: map<string, Component>, relationships: seq<Relationship>)

  /** What a handler answers together with the tables it leaves behind. */
  datatype Outcome<+T> = Outcome(result: Result<T>, tables: Tables)

  /** Every edge names catalogued components at both ends. */
  predicate EdgesResolve(t: Tables) {
    forall e :: e in t.relationships ==> e.top in t.components && e.sub in t.components
  }

  /** The record stored for a new component, stamped with the clock. */
  function NewRecord(c: ComponentCreate, now: int): (r: Component)
    ensures r.lastScanned == now && r.deliveryTime == None
  {
    Component(c.amount, c.measure, c.scannedBy, c.durationOfDevelopment, c.triggerMinAmount,
              c.supplier, c.cost, c.kind, None, now)
  }

  /** The edge table with a (root, name, 0) placeholder added unless some
      (root, name) edge is already there. */
  function WithPlaceholder(rels: seq<Relationship>, root: string, name: string): seq<Relationship> {
    if HasPair(rels, root, name) then rels else rels + [Relationship(root, name, 0.0)]
  }

  /** Whether a new component gets a placeholder edge from `root`. */
  predicate LinksToRoot(root: string, name: string) {
    root != "" && root != name
  }

  /** `create_component` on the tables. An existing name with a root gets
      the placeholder if missing and is answered unchanged. With an empty
      root the handler ends without an answer, which the declared response
      model (a `Component`) refuses, so the client sees 500 and nothing has
      changed. A new name is stored, then linked to the root; when the link
      collides with an existing (root, name) edge the record is deleted again
      and 400 returned. */
  function CreatedComponent(t: Tables, root: string, c: ComponentCreate, now: int): Outcome<Component> {
    if c.name in t.components then
      if root != "" then
        Outcome(Ok(t.components[c.name]), t.(relationships := WithPlaceholder(t.relationships, root, c.name)))
      else Outcome(Err(500), t)
    else if LinksToRoot(root, c.name) && HasPair(t.relationships, root, c.name) then
      Outcome(Err(400), t)
    else
      Outcome(Ok(NewRecord(c, now)),
              Tables(t.components[c.name := NewRecord(c, now)],
                     if LinksToRoot(root, c.name) then t.relationships + [Relationship(root, c.name, 0.0)] else t.relationships))
  }

  /** An existing component is never rewritten: the catalogue is unchanged,
      the answer is the stored record (500 and no change at all, for an
      empty root), and the only possible edge change is the added
      placeholder — even from the component to itself, since this branch has
      no root-is-name guard. */
  lemma CreateExistingKeepsRecord(t: Tables, root: string, c: ComponentCreate, now: int)
    requires c.name in t.components
    ensures CreatedComponent(t, root, c, now).tables.components == t.components
    ensures root == "" ==> CreatedComponent(t, root, c, now) == Outcome(Err(500), t)
    ensures root != "" ==> CreatedComponent(t, root, c, now).result == Ok(t.components[c.name])
    ensures root != "" ==> HasPair(CreatedComponent(t, root, c, now).tables.relationships, root, c.name)
    ensures forall e :: e in CreatedComponent(t, root, c, now).tables.relationships <==>
      e in t.relationships || (root != "" && !HasPair(t.relationships, root, c.name) && e == Relationship(root, c.name, 0.0))
  {
    if root != "" && !HasPair(t.relationships, root, c.name) {
      assert Relationship(root, c.name, 0.0) in t.relationships + [Relationship(root, c.name, 0.0)];
    }
  }

  /** A new component is stored with the clock as its scan time and linked
      to the root exactly when the root is non-empty and not the component
      itself (when every edge names catalogued components, no edge can be
      there already); nothing else in either table changes. */
  lemma CreateNewStoresRecord(t: Tables, root: string, c: ComponentCreate, now: int)
    requires c.name !in t.components
    requires CreatedComponent(t, root, c, now).result.Ok?
    ensures CreatedComponent(t, root, c, now).tables.components.Keys == t.components.Keys + {c.name}
    ensures CreatedComponent(t, root, c, now).tables.components[c.name].lastScanned == now
    ensures CreatedComponent(t, root, c, now).tables.components[c.name].amount == c.amount
    ensures CreatedComponent(t, root, c, now).tables.components[c.name].kind == c.kind
    ensures forall n :: n in t.components ==> CreatedComponent(t, root, c, now).tables.components[n] == t.components[n]
    ensures EdgesResolve(t) ==>
      (HasPair(CreatedComponent(t, root, c, now).tables.relationships, root, c.name) <==> LinksToRoot(root, c.name))
    ensures forall e :: e in CreatedComponent(t, root, c, now).tables.relationships <==>
      e in t.relationships || (LinksToRoot(root, c.name) && e == Relationship(root, c.name, 0.0))
  {
    var r := CreatedComponent(t, root, c, now).tables.relationships;
    if LinksToRoot(root, c.name) {
      assert Relationship(root, c.name, 0.0) in r;
    }
  }

  /** The create fails when the new component's placeholder collides (400)
      or when an existing name comes without a root (500), and then both
      tables are as before: the compensating delete undoes the insert. */
  lemma CreateFailureRollsBack(t: Tables, root: string, c: ComponentCreate, now: int)
    ensures CreatedComponent(t, root, c, now).result.Err? <==>
      (c.name in t.components && root == "")
      || (c.name !in t.components && LinksToRoot(root, c.name) && HasPair(t.relationships, root, c.name))
    ensures CreatedComponent(t, root, c, now).result.Err? ==>
      CreatedComponent(t, root, c, now) == Outcome(Err(if c.name in t.components then 500 else 400), t)
  {
  }

  /** The unique constraint survives a create. */
  lemma CreateKeepsUnique(t: Tables, root: string, c: ComponentCreate, now: int)
    requires UniquePairs(t.relationships)
    ensures UniquePairs(CreatedComponent(t, root, c, now).tables.relationships)
  {
    if !HasPair(t.relationships, root, c.name) {
      AppendNewPairKeepsUnique(t.relationships, Relationship(root, c.name, 0.0));
    }
  }

  /** `create_component`. */
  method CreateComponent(db: Database, root: string, c: ComponentCreate, now: int) returns (r: Result<Component>)
    requires db.Valid()
    modifies db`components, db`relationships
    ensures db.Valid()
    ensures r == CreatedComponent(Tables(old(db.components), old(db.relationships)), root, c, now).result
    ensures Tables(db.components, db.relationships)
      == CreatedComponent(Tables(old(db.components), old(db.relationships)), root, c, now).tables
  {
    CreateKeepsUnique(Tables(db.components, db.relationships), root, c, now);
    if c.name in db.components {
      if root != "" {
        var existingRel := Relationships.FindPair(db.relationships, root, c.name);
        if existingRel.None? {
          db.relationships := db.relationships + [Relationship(root, c.name, 0.0)];
        }
        return Ok(db.components[c.name]);
      }
      return Err(500);
    }
    ghost var before := db.components;
    var created := NewRecord(c, now);
    db.components := db.components[c.name := created];
    if root != "" && root != c.name {
      var clash := Relationships.FindPair(db.relationships, root, c.name);
      if clash.Some? {
        db.components := db.components - {c.name};
        assert db.components == before;
        return Err(400);
      }
      db.relationships := db.relationships + [Relationship(root, c.name, 0.0)];
    }
    r := Ok(created);
  }

  /** The record after an update: every field given replaces the stored
      one, and the scan time is the clock. */
  function Merged(c: Component, u: ComponentUpdate, now: int): Component {
    Component(
      if u.amount.Some? then u.amount.value else c.amount,
      if u.measure.Some? then u.measure.value else c.measure,
      if u.scannedBy.Some? then u.scannedBy.value else c.scannedBy,
      if u.durationOfDevelopment.Some? then u.durationOfDevelopment.value else c.durationOfDevelopment,
      if u.triggerMinAmount.Some? then u.triggerMinAmount.value else c.triggerMinAmount,
      if u.supplier.Some? then u.supplier.value else c.supplier,
      if u.cost.Some? then u.cost.value else c.cost,
      if u.kind.Some? then u.kind.value else c.kind,
      c.deliveryTime,
      now)
  }

  /** An update with every field left out. */
  const NoChanges := ComponentUpdate(None, None, None, None, None, None, None, None)

  /** Applying the same update twice at the same time is applying it once. */
  lemma MergedIdempotent(c: Component, u: ComponentUpdate, now: int)
    ensures Merged(Merged(c, u, now), u, now) == Merged(c, u, now)
  {
  }

  /** An update with no fields only renews the scan time; the delivery time
      is never written by an update. */
  lemma MergedNoChanges(c: Component, u: ComponentUpdate, now: int)
    ensures Merged(c, NoChanges, now) == c.(lastScanned := now)
    ensures Merged(c, u, now).deliveryTime == c.deliveryTime
  {
  }

  /** `update_component` on the catalogue: a missing name is a 404 that
      leaves as 400. */
  function UpdatedComponent(components: map<string, Component>, name: string, u: ComponentUpdate, now: int)
    : (Result<Component>, map<string, Component>)
  {
    if name !in components then (Err(400), components)
    else (Ok(Merged(components[name], u, now)), components[name := Merged(components[name], u, now)])
  }

  /** An update touches only the named record, answers what it stored, and
      fails with 400 (changing nothing) exactly when the name is missing. */
  lemma UpdateTouchesOnlyNamed(components: map<string, Component>, name: string, u: ComponentUpdate, now: int)
    ensures UpdatedComponent(components, name, u, now).0.Err? <==> name !in components
    ensures UpdatedComponent(components, name, u, now).0.Err? ==>
      UpdatedComponent(components, name, u, now) == (Err(400), components)
    ensures UpdatedComponent(components, name, u, now).1.Keys == components.Keys
    ensures forall n :: n in components && n != name ==> UpdatedComponent(components, name, u, now).1[n] == components[n]
    ensures UpdatedComponent(components, name, u, now).0.Ok? ==>
      UpdatedComponent(components, name, u, now).1[name] == UpdatedComponent(components, name, u, now).0.value
      && UpdatedComponent(components, name, u, now).0.value.lastScanned == now
  {
  }

  /** `update_component`. */
  method UpdateComponent(db: Database, name: string, u: ComponentUpdate, now: int) returns (r: Result<Component>)
    requires db.Valid()
    modifies db`components
    ensures db.Valid()
    ensures (r, db.components) == UpdatedComponent(old(db.components), name, u, now)
  {
    if name !in db.components {
      return Err(400);
    }
    var updated := Merged(db.components[name], u, now);
    db.components := db.components[name := updated];
    r := Ok(updated);
  }

  /** Whether the edge mentions `name` at either end. */
  predicate Mentions(e: Relationship, name: string) {
    e.top == name || e.sub == name
  }

  /** The edge table without any edge that mentions `name`. */
  function Detached(rels: seq<Relationship>, name: string): (r: seq<Relationship>)
    ensures forall e :: e in r <==> e in rels && !Mentions(e, name)
  {
    Filter(rels, (e: Relationship) => !Mentions(e, name))
  }

  /** `delete_component` on the tables. A missing name is 404. A full delete
      drops every edge that mentions the component and then the record; a
      partial delete drops only the (parent, name) edge and keeps the record.
      The delete of a missing edge answers nothing rather than failing, so
      the record is answered then too. A partial delete without a parent
      cannot address the edge and fails with 500. */
  function DeletedComponent(t: Tables, name: string, deleteOutOfDatabase: bool, parent: Option<string>): Outcome<Component> {
    if name !in t.components then Outcome(Err(404), t)
    else if deleteOutOfDatabase then
      Outcome(Ok(t.components[name]), Tables(t.components - {name}, Detached(t.relationships, name)))
    else if parent.None? then Outcome(Err(500), t)
    else Outcome(Ok(t.components[name]), t.(relationships := RemovePair(t.relationships, parent.value, name)))
  }

  /** A full delete removes the record and every edge that mentions it, and
      nothing else; so edges that named catalogued components still do. */
  lemma FullDeleteDetaches(t: Tables, name: string, parent: Option<string>)
    requires name in t.components
    ensures DeletedComponent(t, name, true, parent).result == Ok(t.components[name])
    ensures DeletedComponent(t, name, true, parent).tables.components.Keys == t.components.Keys - {name}
    ensures forall e :: e in DeletedComponent(t, name, true, parent).tables.relationships <==>
      e in t.relationships && e.top != name && e.sub != name
    ensures EdgesResolve(t) ==> EdgesResolve(DeletedComponent(t, name, true, parent).tables)
  {
  }

  /** A partial delete answers the stored record, keeps the catalogue and
      removes only the edge from the given parent; without such an edge it
      changes nothing and still succeeds. */
  lemma PartialDeleteUnlinks(t: Tables, name: string, parent: string)
    requires name in t.components
    ensures DeletedComponent(t, name, false, Some(parent)).result == Ok(t.components[name])
    ensures DeletedComponent(t, name, false, Some(parent)).tables.components == t.components
    ensures forall e :: e in DeletedComponent(t, name, false, Some(parent)).tables.relationships <==>
      e in t.relationships && (e.top != parent || e.sub != name)
    ensures !HasPair(t.relationships, parent, name) ==> DeletedComponent(t, name, false, Some(parent)).tables == t
  {
    if !HasPair(t.relationships, parent, name) {
      FilterAllOrNone(t.relationships, (e: Relationship) => e.top != parent || e.sub != name);
    }
  }

  /** The unique constraint survives a delete. */
  lemma DeleteKeepsUnique(t: Tables, name: string, deleteOutOfDatabase: bool, parent: Option<string>)
    requires UniquePairs(t.relationships)
    ensures UniquePairs(DeletedComponent(t, name, deleteOutOfDatabase, parent).tables.relationships)
  {
    var p := (e: Relationship) => !Mentions(e, name);
    forall i, j | 0 <= i < j < |Detached(t.relationships, name)|
      ensures Detached(t.relationships, name)[i].top != Detached(t.relationships, name)[j].top
        || Detached(t.relationships, name)[i].sub != Detached(t.relationships, name)[j].sub
    {
      FilterIndices(t.relationships, p, i, j);
    }
    if parent.Some? {
      RemovePairKeepsUnique(t.relationships, parent.value, name);
    }
  }

  /** `delete_component`. */
  method DeleteComponent(db: Database, name: string, deleteOutOfDatabase: bool, parent: Option<string>)
    returns (r: Result<Component>)
    requires db.Valid()
    modifies db`components, db`relationships
    ensures db.Valid()
    ensures r == DeletedComponent(Tables(old(db.components), old(db.relationships)), name, deleteOutOfDatabase, parent).result
    ensures Tables(db.components, db.relationships)
      == DeletedComponent(Tables(old(db.components), old(db.relationships)), name, deleteOutOfDatabase, parent).tables
  {
    DeleteKeepsUnique(Tables(db.components, db.relationships), name, deleteOutOfDatabase, parent);
    if name !in db.components {
      return Err(404);
    }
    var component := db.components[name];
    if deleteOutOfDatabase {
      db.relationships := Detached(db.relationships, name);
      db.components := db.components - {name};
      return Ok(component);
    }
    if parent.None? {
      return Err(500);
    }
    db.relationships := RemovePair(db.relationships, parent.value, name);
    r := Ok(component);
  }
}
