/** The stock-update rule (`update_component_stock_logic` in
    server/controllers/stockupdate.py): a scan sets or changes a component's
    stock, and building more of an assembly consumes its direct
    sub-components. */
module StockUpdate {
  import opened Wrappers
  import opened Text
  import opened Seqs
  import opened Store

  function Max0(x: real): real { if x > 0.0 then x else 0.0 }

  /** The stock after the update: `amount` itself, or added to the current stock. */
  function NewAmount(current: real, amount: real, absolute: bool): real {
    if absolute then amount else current + amount
  }

  /** The error of a rejected update, if any: 400 for a blank name, 404 for an
      unknown component, 400 for a negative resulting stock. */
  function UpdateError(components: map<string, Component>, name: string, amount: real, absolute: bool): Option<int> {
    if Trim(name) == [] then Some(400)
    else if name !in components then Some(404)
    else if NewAmount(components[name].amount, amount, absolute) < 0.0 then Some(400)
    else None
  }

  /** The sub-component decrements, applied in the order of `outs`: each
      existing sub-component loses the edge amount times `amount`, floored at 0. */
  function Consume(components: map<string, Component>, outs: seq<Relationship>, amount: real): (r: map<string, Component>)
    ensures r.Keys == components.Keys
    decreases |outs|
  {
    if outs == [] then components
    else ConsumeOne(Consume(components, outs[..|outs| - 1], amount), outs[|outs| - 1], amount)
  }

  function ConsumeOne(components: map<string, Component>, e: Relationship, amount: real): (r: map<string, Component>)
    ensures r.Keys == components.Keys
    ensures e.sub in components ==> r[e.sub] == Decremented(components[e.sub], e.amount * amount)
    ensures forall m :: m in components && m != e.sub ==> r[m] == components[m]
  {
    if e.sub in components then components[e.sub := Decremented(components[e.sub], e.amount * amount)]
    else components
  }

  /** A sub-component after `used` units of it went into the parent. */
  function Decremented(c: Component, used: real): (r: Component)
    ensures r.amount >= 0.0 && r.amount >= c.amount - used
    ensures used >= 0.0 && c.amount >= 0.0 ==> r.amount <= c.amount
    ensures r == c.(amount := r.amount)
  {
    c.(amount := Max0(c.amount - used))
  }

  /** The catalogue after a successful update of `name`. */
  function Updated(components: map<string, Component>, rels: seq<Relationship>, name: string,
                   amount: real, absolute: bool, scannedBy: string, now: int): map<string, Component>
    requires name in components
  {
    Consume(Written(components, name, amount, absolute, scannedBy, now), Consumed(rels, name, amount, absolute), amount)
  }

  lemma {:induction false} ConsumeUntouched(components: map<string, Component>, outs: seq<Relationship>, amount: real, m: string)
    requires forall k :: 0 <= k < |outs| ==> outs[k].sub != m
    ensures m in components ==> Consume(components, outs, amount)[m] == components[m]
    decreases |outs|
  {
    if outs != [] {
      ConsumeUntouched(components, outs[..|outs| - 1], amount, m);
    }
  }

  lemma {:induction false} ConsumeOnce(components: map<string, Component>, outs: seq<Relationship>, amount: real, k: int)
    requires 0 <= k < |outs| && outs[k].sub in components
    requires forall j :: 0 <= j < |outs| && j != k ==> outs[j].sub != outs[k].sub
    ensures Consume(components, outs, amount)[outs[k].sub]
         == components[outs[k].sub].(amount := Max0(components[outs[k].sub].amount - outs[k].amount * amount))
    decreases |outs|
  {
    var init := outs[..|outs| - 1];
    if k == |outs| - 1 {
      ConsumeUntouched(components, init, amount, outs[k].sub);
    } else {
      ConsumeOnce(components, init, amount, k);
    }
  }

  /** Under the unique-pair constraint a component has each sub-component once. */
  lemma OutgoingSubsDistinct(rels: seq<Relationship>, top: string)
    requires UniquePairs(rels)
    ensures var outs := Outgoing(rels, top);
      forall i, j :: 0 <= i < j < |outs| ==> outs[i].sub != outs[j].sub
  {
    var outs := Outgoing(rels, top);
    forall i, j | 0 <= i < j < |outs| ensures outs[i].sub != outs[j].sub {
      FilterIndices(rels, (e: Relationship) => e.top == top, i, j);
    }
  }

  /** The sub-components a successful update consumes: the direct
      sub-components, and only on a relative increase. */
  function Consumed(rels: seq<Relationship>, name: string, amount: real, absolute: bool): seq<Relationship> {
    if !absolute && amount > 0.0 then Outgoing(rels, name) else []
  }

  function Written(components: map<string, Component>, name: string, amount: real, absolute: bool,
                   scannedBy: string, now: int): map<string, Component>
    requires name in components
  {
    components[name := components[name].(amount := NewAmount(components[name].amount, amount, absolute),
                                         lastScanned := now, scannedBy := scannedBy)]
  }

  /** A successful update keeps the catalogue's names, and gives the named
      component its new stock, the scanner and the scan time (unless it lists
      itself as its own sub-component). */
  lemma UpdatedNamed(components: map<string, Component>, rels: seq<Relationship>, name: string,
                     amount: real, absolute: bool, scannedBy: string, now: int)
    requires name in components && !HasPair(rels, name, name)
    ensures Updated(components, rels, name, amount, absolute, scannedBy, now).Keys == components.Keys
    ensures Updated(components, rels, name, amount, absolute, scannedBy, now)[name]
         == components[name].(amount := NewAmount(components[name].amount, amount, absolute),
                              lastScanned := now, scannedBy := scannedBy)
  {
    var outs := Consumed(rels, name, amount, absolute);
    assert forall k :: 0 <= k < |outs| ==> outs[k] in rels && outs[k].top == name;
    ConsumeUntouched(Written(components, name, amount, absolute, scannedBy, now), outs, amount, name);
  }

  /** A component other than the named one changes only when it is a direct
      sub-component and the update is a relative increase. */
  lemma UpdatedUntouched(components: map<string, Component>, rels: seq<Relationship>, name: string,
                         amount: real, absolute: bool, scannedBy: string, now: int, m: string)
    requires name in components && m in components && m != name
    requires absolute || amount <= 0.0 || !HasPair(rels, name, m)
    ensures Updated(components, rels, name, amount, absolute, scannedBy, now)[m] == components[m]
  {
    var outs := Consumed(rels, name, amount, absolute);
    assert forall k :: 0 <= k < |outs| ==> outs[k] in rels && outs[k].top == name;
    ConsumeUntouched(Written(components, name, amount, absolute, scannedBy, now), outs, amount, m);
  }

  /** On a relative increase by `amount`, each existing direct sub-component
      loses its edge amount times `amount`, floored at 0. */
  lemma UpdatedConsumes(components: map<string, Component>, rels: seq<Relationship>, name: string,
                        amount: real, scannedBy: string, now: int, e: Relationship)
    requires UniquePairs(rels) && name in components && amount > 0.0
    requires e in rels && e.top == name && e.sub != name && e.sub in components
    ensures Updated(components, rels, name, amount, false, scannedBy, now)[e.sub]
         == components[e.sub].(amount := Max0(components[e.sub].amount - e.amount * amount))
  {
    var outs := Outgoing(rels, name);
    OutgoingSubsDistinct(rels, name);
    assert e in outs;
    var k :| 0 <= k < |outs| && outs[k] == e;
    ConsumeOnce(Written(components, name, amount, false, scannedBy, now), outs, amount, k);
  }

  /** An accepted update never leaves a negative stock on the component it
      names. */
  lemma AcceptedIsNonNegative(components: map<string, Component>, name: string, amount: real, absolute: bool)
    requires UpdateError(components, name, amount, absolute).None?
    ensures name in components && NewAmount(components[name].amount, amount, absolute) >= 0.0
  {
  }

  /** The sub-component loop of `update_component_stock_logic`: each edge in
      turn reads the sub-component's current stock, skips a missing one, and
      writes the decremented stock floored at 0. */
  method ConsumeSubcomponents(components: map<string, Component>, subcomponents: seq<Relationship>, amount: real)
    returns (r: map<string, Component>)
    ensures r == Consume(components, subcomponents, amount)
  {
    r := components;
    var i := 0;
    while i < |subcomponents|
      invariant 0 <= i <= |subcomponents|
      invariant r == Consume(components, subcomponents[..i], amount)
    {
      var e := subcomponents[i];
      assert subcomponents[..i + 1][..i] == subcomponents[..i];
      ghost var before := r;
      if e.sub in r {
        var sub := r[e.sub];
        var newSubAmount := sub.amount - e.amount * amount;
        if newSubAmount < 0.0 {
          newSubAmount := 0.0;
        }
        assert sub.(amount := newSubAmount) == Decremented(sub, e.amount * amount);
        r := r[e.sub := sub.(amount := newSubAmount)];
      }
      assert r.Keys == ConsumeOne(before, e, amount).Keys;
      assert forall m :: m in r ==> r[m] == ConsumeOne(before, e, amount)[m];
      assert Consume(components, subcomponents[..i + 1], amount)
          == ConsumeOne(Consume(components, subcomponents[..i], amount), e, amount);
      i := i + 1;
    }
    assert subcomponents[..i] == subcomponents;
  }

  /** `update_component_stock_logic` on the database. Returns the component as
      written by the first update, before the sub-components are consumed. */
  method UpdateComponentStock(db: Database, name: string, amount: real, absolute: bool, scannedBy: string, now: int)
    returns (r: Result<Component>)
    requires db.Valid()
    modifies db
    ensures db.Valid()
    ensures r.Err? <==> UpdateError(old(db.components), name, amount, absolute).Some?
    ensures r.Err? ==> r.status == UpdateError(old(db.components), name, amount, absolute).value && unchanged(db)
    ensures r.Ok? ==> name in old(db.components)
    ensures r.Ok? ==> db.components == Updated(old(db.components), db.relationships, name, amount, absolute, scannedBy, now)
    ensures r.Ok? ==> r.value == Written(old(db.components), name, amount, absolute, scannedBy, now)[name]
    ensures db.relationships == old(db.relationships) && db.reservations == old(db.reservations)
    ensures db.allocations == old(db.allocations) && db.purchases == old(db.purchases)
  {
    if Trim(name) == [] {
      return Err(400);
    }
    if name !in db.components {
      return Err(404);
    }
    var current := db.components[name];
    var newAmount := if absolute then amount else current.amount + amount;
    if newAmount < 0.0 {
      return Err(400);
    }
    var updated := current.(amount := newAmount, lastScanned := now, scannedBy := scannedBy);
    db.components := db.components[name := updated];
    if !absolute && amount > 0.0 {
      var subcomponents := Outgoing(db.relationships, name);
      var consumed := ConsumeSubcomponents(db.components, subcomponents, amount);
      db.components := consumed;
    } else {
      assert db.components == Consume(db.components, [], amount);
    }
    r := Ok(updated);
  }
}
