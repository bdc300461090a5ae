/** The relationship handlers: reads, updates, deletes and inserts on the edge
    table keyed by (topComponent, subComponent). A "placeholder" edge
    (root, sub, 0) records that `sub` appears in the tree of `root` without
    being one of its parts. Every exception a handler raises inside its `try`
    reaches the caller as 400. */
module Relationships {
  import opened Wrappers
  import opened Seqs
  import opened Text
  import opened Store

  /** The body of a create request. `topComponent` and `subComponent` may be
      '/'-joined node paths; `root` names the tree being edited. */
  datatype RelationshipRequest = RelationshipRequest(
    topComponent: string,
    subComponent: string,
    amount: real,
    root: string)

  /** What a handler answers together with the edge table it leaves behind. */
  datatype Outcome<+T> = Outcome(result: Result<T>, edges: seq<Relationship>)

  /** The first row keyed (top, sub), as `find_first` returns it. */
  function FindPair(rels: seq<Relationship>, top: string, sub: string): (r: Option<Relationship>)
    ensures r.Some? <==> HasPair(rels, top, sub)
    ensures r.Some? ==> r.value in rels && r.value.top == top && r.value.sub == sub
  {
    if rels == [] then None
    else if rels[0].top == top && rels[0].sub == sub then Some(rels[0])
    else
      assert forall e :: e in rels[1..] ==> e in rels;
      assert HasPair(rels, top, sub) ==> HasPair(rels[1..], top, sub) by {
        if HasPair(rels, top, sub) {
          var e :| e in rels && e.top == top && e.sub == sub;
          var k :| 0 <= k < |rels| && rels[k] == e;
          assert k != 0;
          assert rels[1..][k - 1] == e;
        }
      }
      FindPair(rels[1..], top, sub)
  }

  /** Under the unique constraint a key determines its row. */
  lemma SameKeySameRow(rels: seq<Relationship>, e: Relationship, f: Relationship)
    requires UniquePairs(rels) && e in rels && f in rels
    requires e.top == f.top && e.sub == f.sub
    ensures e == f
  {
    var i :| 0 <= i < |rels| && rels[i] == e;
    var j :| 0 <= j < |rels| && rels[j] == f;
    assert rels[i].top == rels[j].top && rels[i].sub == rels[j].sub ==> i == j;
  }

  /** `get_relationship`: the row keyed (top, sub), or 404. */
  function GetRelationship(rels: seq<Relationship>, top: string, sub: string): (r: Result<Relationship>)
    ensures r.Err? <==> !HasPair(rels, top, sub)
    ensures r.Err? ==> r.status == 404
    ensures r.Ok? ==> r.value in rels && r.value.top == top && r.value.sub == sub
  {
    match FindPair(rels, top, sub)
    case None => Err(404)
    case Some(e) => Ok(e)
  }

  /** The table without the placeholder (root, target, 0), when there is one. */
  function WithoutPlaceholder(rels: seq<Relationship>, root: string, target: string): seq<Relationship> {
    if Relationship(root, target, 0.0) in rels then RemovePair(rels, root, target) else rels
  }

  /** The edge table after `create_relationship` on the reduced names: an
      existing (source, target) row only gets the new amount; otherwise the
      placeholder from `root` is severed and the new row inserted. */
  function CreatedEdges(rels: seq<Relationship>, source: string, target: string, amount: real, root: string): seq<Relationship> {
    if HasPair(rels, source, target) then SetPairAmount(rels, source, target, amount)
    else WithoutPlaceholder(rels, root, target) + [Relationship(source, target, amount)]
  }

  /** Whatever happened before, the table ends with exactly one row keyed
      (source, target), and it carries the requested amount. */
  lemma CreateStoresAmount(rels: seq<Relationship>, source: string, target: string, amount: real, root: string)
    ensures Relationship(source, target, amount) in CreatedEdges(rels, source, target, amount, root)
    ensures forall e :: e in CreatedEdges(rels, source, target, amount, root) && e.top == source && e.sub == target ==>
      e.amount == amount
  {
    var r := CreatedEdges(rels, source, target, amount, root);
    if HasPair(rels, source, target) {
      var e :| e in rels && e.top == source && e.sub == target;
      var k :| 0 <= k < |rels| && rels[k] == e;
      assert r[k] == Relationship(source, target, amount);
      forall f | f in r && f.top == source && f.sub == target ensures f.amount == amount {
        var j :| 0 <= j < |r| && r[j] == f;
        assert r[j].top == rels[j].top && r[j].sub == rels[j].sub;
      }
    } else {
      var rest := WithoutPlaceholder(rels, root, target);
      assert r == rest + [Relationship(source, target, amount)];
      assert forall e :: e in rest ==> e in rels;
    }
  }

  /** When the pair already exists, every row keeps its key and its position,
      and only the (source, target) row changes, in its amount. */
  lemma CreateExistingChangesOnlyAmount(rels: seq<Relationship>, source: string, target: string, amount: real, root: string)
    requires HasPair(rels, source, target)
    ensures |CreatedEdges(rels, source, target, amount, root)| == |rels|
    ensures forall i :: 0 <= i < |rels| ==>
      CreatedEdges(rels, source, target, amount, root)[i].top == rels[i].top &&
      CreatedEdges(rels, source, target, amount, root)[i].sub == rels[i].sub &&
      (rels[i].top != source || rels[i].sub != target ==> CreatedEdges(rels, source, target, amount, root)[i] == rels[i])
  {
  }

  /** When the pair is new, the table gains exactly the new row and loses
      exactly the placeholder (root, target, 0); a non-zero edge from `root`
      to `target` is kept. */
  lemma CreateNewReplacesPlaceholder(rels: seq<Relationship>, source: string, target: string, amount: real, root: string)
    requires UniquePairs(rels) && !HasPair(rels, source, target)
    ensures forall e :: e in CreatedEdges(rels, source, target, amount, root) <==>
      e == Relationship(source, target, amount) || (e in rels && e != Relationship(root, target, 0.0))
  {
    var placeholder := Relationship(root, target, 0.0);
    var rest := WithoutPlaceholder(rels, root, target);
    assert CreatedEdges(rels, source, target, amount, root) == rest + [Relationship(source, target, amount)];
    forall e ensures e in rest <==> e in rels && e != placeholder {
      if placeholder in rels && e in rels && e.top == root && e.sub == target {
        SameKeySameRow(rels, e, placeholder);
      }
    }
  }

  /** The unique constraint survives a create. */
  lemma CreateKeepsUnique(rels: seq<Relationship>, source: string, target: string, amount: real, root: string)
    requires UniquePairs(rels)
    ensures UniquePairs(CreatedEdges(rels, source, target, amount, root))
  {
    if HasPair(rels, source, target) {
      SetPairAmountKeepsUnique(rels, source, target, amount);
    } else {
      var rest := WithoutPlaceholder(rels, root, target);
      if Relationship(root, target, 0.0) in rels {
        RemovePairKeepsUnique(rels, root, target);
      }
      assert forall e :: e in rest ==> e in rels;
      AppendNewPairKeepsUnique(rest, Relationship(source, target, amount));
    }
  }

  /** `create_relationship`. Top and sub are reduced to their last '/'
      segment; `root` is used as given. Returns the stored row. */
  method CreateRelationship(db: Database, request: RelationshipRequest) returns (r: Relationship)
    requires db.Valid()
    modifies db`relationships
    ensures db.Valid()
    ensures r == Relationship(LastSegment(request.topComponent, '/'), LastSegment(request.subComponent, '/'), request.amount)
    ensures db.relationships == CreatedEdges(old(db.relationships), r.top, r.sub, r.amount, request.root)
  {
    var source := LastSegment(request.topComponent, '/');
    var target := LastSegment(request.subComponent, '/');
    r := Relationship(source, target, request.amount);
    CreateKeepsUnique(db.relationships, source, target, request.amount, request.root);
    var existing := FindPair(db.relationships, source, target);
    if existing.Some? {
      db.relationships := SetPairAmount(db.relationships, source, target, request.amount);
      return;
    }
    if Relationship(request.root, target, 0.0) in db.relationships {
      db.relationships := RemovePair(db.relationships, request.root, target);
    }
    db.relationships := db.relationships + [r];
  }

  /** `update_relationship` on the table: the names are used as given; a
      missing row is a 404 that leaves as 400. */
  function UpdatedEdges(rels: seq<Relationship>, top: string, sub: string, amount: real): Outcome<Relationship> {
    if !HasPair(rels, top, sub) then Outcome(Err(400), rels)
    else Outcome(Ok(Relationship(top, sub, amount)), SetPairAmount(rels, top, sub, amount))
  }

  /** Update fails exactly on a missing row and then changes nothing; on
      success the returned row is the one a lookup now finds, and no other
      row changes. */
  lemma UpdateRelationshipOutcome(rels: seq<Relationship>, top: string, sub: string, amount: real)
    ensures UpdatedEdges(rels, top, sub, amount).result.Err? <==> !HasPair(rels, top, sub)
    ensures UpdatedEdges(rels, top, sub, amount).result.Err? ==>
      UpdatedEdges(rels, top, sub, amount).result.status == 400 && UpdatedEdges(rels, top, sub, amount).edges == rels
    ensures UpdatedEdges(rels, top, sub, amount).result.Ok? ==>
      FindPair(UpdatedEdges(rels, top, sub, amount).edges, top, sub) == Some(UpdatedEdges(rels, top, sub, amount).result.value)
    ensures |UpdatedEdges(rels, top, sub, amount).edges| == |rels|
    ensures forall i :: 0 <= i < |rels| && (rels[i].top != top || rels[i].sub != sub) ==>
      UpdatedEdges(rels, top, sub, amount).edges[i] == rels[i]
  {
    if HasPair(rels, top, sub) {
      CreateStoresAmount(rels, top, sub, amount, top);
      var found := FindPair(SetPairAmount(rels, top, sub, amount), top, sub);
      assert found.Some? && found.value.amount == amount;
    }
  }

  /** `update_relationship`. */
  method UpdateRelationship(db: Database, top: string, sub: string, amount: real) returns (r: Result<Relationship>)
    requires db.Valid()
    modifies db`relationships
    ensures db.Valid()
    ensures r == UpdatedEdges(old(db.relationships), top, sub, amount).result
    ensures db.relationships == UpdatedEdges(old(db.relationships), top, sub, amount).edges
  {
    var existing := FindPair(db.relationships, top, sub);
    if existing.None? {
      return Err(400);
    }
    SetPairAmountKeepsUnique(db.relationships, top, sub, amount);
    db.relationships := SetPairAmount(db.relationships, top, sub, amount);
    r := Ok(Relationship(top, sub, amount));
  }

  /** The reply of a successful delete. */
  const DeletedMessage := "Relationship deleted successfully"

  /** The delete on the table, once the names are reduced: the (top, sub) row
      is deleted and a placeholder (root, sub, 0) created. When that insert
      collides with an existing (root, sub) row the request fails, but the
      deletion has already been made. */
  function DeletedEdges(rels: seq<Relationship>, root: string, top: string, sub: string): Outcome<string> {
    if !HasPair(rels, top, sub) then Outcome(Err(400), rels)
    else if HasPair(RemovePair(rels, top, sub), root, sub) then Outcome(Err(400), RemovePair(rels, top, sub))
    else Outcome(Ok(DeletedMessage), RemovePair(rels, top, sub) + [Relationship(root, sub, 0.0)])
  }

  /** `delete_relationship` on the table: root is the first '/' segment of the
      top path, top and sub the last segments of their paths. */
  function DeleteOnPaths(rels: seq<Relationship>, topPath: string, subPath: string): Outcome<string> {
    DeletedEdges(rels, FirstSegment(topPath, '/'), LastSegment(topPath, '/'), LastSegment(subPath, '/'))
  }

  /** A missing edge fails with 400 and changes nothing. */
  lemma DeleteMissing(rels: seq<Relationship>, root: string, top: string, sub: string)
    requires !HasPair(rels, top, sub)
    ensures DeletedEdges(rels, root, top, sub) == Outcome(Err(400), rels)
  {
  }

  /** A successful delete leaves the other rows as they were and hangs `sub`
      under the root with a placeholder; unless the root is the top itself,
      no (top, sub) edge remains. */
  lemma DeleteMovesToRoot(rels: seq<Relationship>, root: string, top: string, sub: string)
    requires DeletedEdges(rels, root, top, sub).result.Ok?
    ensures forall e :: e in DeletedEdges(rels, root, top, sub).edges <==>
      e == Relationship(root, sub, 0.0) || (e in rels && (e.top != top || e.sub != sub))
    ensures root != top ==> !HasPair(DeletedEdges(rels, root, top, sub).edges, top, sub)
  {
    var rest := RemovePair(rels, top, sub);
    assert DeletedEdges(rels, root, top, sub).edges == rest + [Relationship(root, sub, 0.0)];
  }

  /** When the root is the top itself, the delete succeeds and the edge stays,
      with amount 0. */
  lemma DeleteFromRootKeepsEdge(rels: seq<Relationship>, top: string, sub: string)
    requires UniquePairs(rels) && HasPair(rels, top, sub)
    ensures DeletedEdges(rels, top, top, sub).result == Ok(DeletedMessage)
    ensures FindPair(DeletedEdges(rels, top, top, sub).edges, top, sub) == Some(Relationship(top, sub, 0.0))
  {
    RemovePairKeepsUnique(rels, top, sub);
    var rest := RemovePair(rels, top, sub);
    var r := rest + [Relationship(top, sub, 0.0)];
    AppendNewPairKeepsUnique(rest, Relationship(top, sub, 0.0));
    var found := FindPair(r, top, sub);
    SameKeySameRow(r, found.value, Relationship(top, sub, 0.0));
  }

  /** A top given as a plain name (no '/') is its own root, so deleting by
      plain names never removes an edge: it only zeroes its amount. */
  lemma PlainTopIsRoot(topPath: string, subPath: string, rels: seq<Relationship>)
    requires '/' !in topPath
    ensures FirstSegment(topPath, '/') == topPath && LastSegment(topPath, '/') == topPath
    ensures DeleteOnPaths(rels, topPath, subPath) == DeletedEdges(rels, topPath, topPath, LastSegment(subPath, '/'))
  {
  }

  /** When `sub` already has an edge from a root other than the top, the
      placeholder insert fails: 400 is returned, yet the (top, sub) edge is
      gone. */
  lemma DeleteCollisionStillRemoves(rels: seq<Relationship>, root: string, top: string, sub: string)
    requires HasPair(rels, top, sub) && HasPair(rels, root, sub) && root != top
    ensures DeletedEdges(rels, root, top, sub).result == Err(400)
    ensures !HasPair(DeletedEdges(rels, root, top, sub).edges, top, sub)
    ensures |DeletedEdges(rels, root, top, sub).edges| < |rels|
  {
    var p := (e: Relationship) => e.top != top || e.sub != sub;
    var e :| e in rels && e.top == root && e.sub == sub;
    assert e in RemovePair(rels, top, sub);
    var f :| f in rels && f.top == top && f.sub == sub;
    FilterDrops(rels, p, f);
  }

  /** The unique constraint survives a delete, whatever its outcome. */
  lemma DeleteKeepsUnique(rels: seq<Relationship>, root: string, top: string, sub: string)
    requires UniquePairs(rels)
    ensures UniquePairs(DeletedEdges(rels, root, top, sub).edges)
  {
    RemovePairKeepsUnique(rels, top, sub);
    if HasPair(rels, top, sub) && !HasPair(RemovePair(rels, top, sub), root, sub) {
      AppendNewPairKeepsUnique(RemovePair(rels, top, sub), Relationship(root, sub, 0.0));
    }
  }

  /** `delete_relationship`. */
  method DeleteRelationship(db: Database, topPath: string, subPath: string) returns (r: Result<string>)
    requires db.Valid()
    modifies db`relationships
    ensures db.Valid()
    ensures r == DeleteOnPaths(old(db.relationships), topPath, subPath).result
    ensures db.relationships == DeleteOnPaths(old(db.relationships), topPath, subPath).edges
  {
    var rels;
    r, rels := DeleteEdges(db.relationships, topPath, subPath);
    db.relationships := rels;
    assert AtMostOnePending(db.purchases);
  }

  /** The steps of `delete_relationship` on the table: the names are reduced,
      the row deleted and the placeholder inserted. */
  method DeleteEdges(rels: seq<Relationship>, topPath: string, subPath: string)
    returns (r: Result<string>, edges: seq<Relationship>)
    requires UniquePairs(rels)
    ensures UniquePairs(edges)
    ensures r == DeleteOnPaths(rels, topPath, subPath).result && edges == DeleteOnPaths(rels, topPath, subPath).edges
  {
    var root := FirstSegment(topPath, '/');
    var top := LastSegment(topPath, '/');
    var sub := LastSegment(subPath, '/');
    DeleteKeepsUnique(rels, root, top, sub);
    var existing := FindPair(rels, top, sub);
    if existing.None? {
      return Err(400), rels;
    }
    edges := RemovePair(rels, top, sub);
    var clash := FindPair(edges, root, sub);
    if clash.Some? {
      r := Err(400);
    } else {
      edges := edges + [Relationship(root, sub, 0.0)];
      r := Ok(DeletedMessage);
    }
  }
}
