/** The deletion preview of the admin dashboard, over the tree map of
    `ClientTree`. `getTree` turns a failed request into the empty map, so a
    failed fetch reaches the preview as `Some([])`; `None` is a tree value
    that the preview cannot read. */
module Impact {
  import opened Wrappers
  import opened Text
  import opened ClientTree

  datatype ImpactLevel = High | Low | Unknown

  datatype ImpactPreview = ImpactPreview(
    componentName: string,
    canDelete: bool,
    dependentComponents: seq<string>,
    childrenCount: nat,
    hasChildren: bool,
    impact: ImpactLevel,
    message: string)

  /** `children && children.some(([child]) => child === name)`. */
  predicate UsesChild(e: TreeEntry, name: string) {
    e.children.Some? && exists k :: 0 <= k < |e.children.value| && e.children.value[k].child == name
  }

  /** The parents whose list names `name`, in key order. */
  function Dependents(tree: seq<TreeEntry>, name: string): seq<string>
    decreases |tree|
  {
    if tree == [] then []
    else
      var last := tree[|tree| - 1];
      Dependents(tree[..|tree| - 1], name) + (if UsesChild(last, name) then [last.parent] else [])
  }

  /** A dependent is exactly the key of an entry that uses `name`. */
  lemma {:induction false} DependentsMembership(tree: seq<TreeEntry>, name: string)
    ensures forall p :: p in Dependents(tree, name) <==>
      exists k :: 0 <= k < |tree| && tree[k].parent == p && UsesChild(tree[k], name)
    ensures |Dependents(tree, name)| <= |tree|
    decreases |tree|
  {
    if tree != [] {
      var init := tree[..|tree| - 1];
      DependentsMembership(init, name);
      forall p ensures p in Dependents(tree, name) <==>
        exists k :: 0 <= k < |tree| && tree[k].parent == p && UsesChild(tree[k], name)
      {
        if exists k :: 0 <= k < |tree| && tree[k].parent == p && UsesChild(tree[k], name) {
          var k :| 0 <= k < |tree| && tree[k].parent == p && UsesChild(tree[k], name);
          if k < |init| {
            assert init[k] == tree[k];
          }
        }
        if p in Dependents(init, name) {
          var k :| 0 <= k < |init| && init[k].parent == p && UsesChild(init[k], name);
          assert tree[k] == init[k];
        }
      }
    }
  }

  /** The message of a successful preview. */
  function ImpactMessage(dependents: seq<string>, hasChildren: bool, childrenCount: nat): string {
    if |dependents| > 0 then
      "This component is used by " + NatToString(|dependents|) + " other component(s): " + Join(dependents, ", ")
    else if hasChildren then
      "This component has " + NatToString(childrenCount) + " child component(s)"
    else SafeMessage
  }

  /** What the request behind `getTree` produced: a failure (a network
      error, or a non-ok status, which `handleResponse` throws), a body that
      is empty or `null`, or a body whose `tree` value is either a readable
      map of child lists or not (`null`, or a value without `.some`, such as
      a nested tree). */
  datatype TreeFetch = RequestFailed | EmptyBody | Body(tree: Option<seq<TreeEntry>>)

  /** `getTree(...).tree`: the `catch` and `data || { tree: {} }` both give
      the empty map. */
  function GetTree(f: TreeFetch): (r: Option<seq<TreeEntry>>)
    ensures f.Body? ==> r == f.tree
    ensures !f.Body? ==> r == Some([])
  {
    match f
    case Body(tree) => tree
    case _ => Some([])
  }

  const SafeMessage := "This component can be safely deleted"

  /** The answer of the `catch`, when the tree value cannot be read. */
  function FailedPreview(name: string): ImpactPreview {
    ImpactPreview(name, false, [], 0, false, Unknown, "Could not analyze deletion impact")
  }

  /** `children.some(([child]) => child === name)`. */
  method ListsChild(children: seq<ChildLink>, name: string) returns (found: bool)
    ensures found <==> exists k :: 0 <= k < |children| && children[k].child == name
  {
    found := false;
    var j := 0;
    while j < |children| && !found
      invariant 0 <= j <= |children|
      invariant found <==> exists k :: 0 <= k < j && children[k].child == name
    {
      found := children[j].child == name;
      j := j + 1;
    }
  }

  /** `previewDeletionImpact`, with what the request produced as a parameter. */
  method PreviewDeletionImpact(componentName: string, fetch: TreeFetch) returns (p: ImpactPreview)
    ensures GetTree(fetch).None? ==> p == FailedPreview(componentName)
    ensures GetTree(fetch).Some? ==>
      var tree := GetTree(fetch).value;
      var own := ChildrenOf(tree, componentName);
      && p.componentName == componentName
      && p.canDelete
      && p.dependentComponents == Dependents(tree, componentName)
      && (p.hasChildren <==> own.Some? && |own.value| > 0)
      && p.childrenCount == (if p.hasChildren then |own.value| else 0)
      && (p.impact == High <==> p.dependentComponents != [] || p.hasChildren)
      && (p.impact == Low <==> p.dependentComponents == [] && !p.hasChildren)
      && p.message == ImpactMessage(p.dependentComponents, p.hasChildren, p.childrenCount)
    ensures !fetch.Body? ==> p == ImpactPreview(componentName, true, [], 0, false, Low, SafeMessage)
  {
    var fetched := GetTree(fetch);
    if fetched.None? {
      return FailedPreview(componentName);
    }
    var tree := fetched.value;
    var own := ChildrenOf(tree, componentName);
    var hasChildren := own.Some? && |own.value| > 0;
    var childrenCount := if hasChildren then |own.value| else 0;
    var dependents: seq<string> := [];
    var i := 0;
    while i < |tree|
      invariant 0 <= i <= |tree|
      invariant dependents == Dependents(tree[..i], componentName)
    {
      var entry := tree[i];
      assert tree[..i + 1][..i] == tree[..i];
      if entry.children.Some? {
        var found := ListsChild(entry.children.value, componentName);
        if found {
          dependents := dependents + [entry.parent];
        }
      }
      i := i + 1;
    }
    assert tree[..|tree|] == tree;
    var impact := if |dependents| > 0 || hasChildren then High else Low;
    p := ImpactPreview(componentName, true, dependents, childrenCount, hasChildren, impact,
                       ImpactMessage(dependents, hasChildren, childrenCount));
  }

  /** A component that no key lists as a child and that has no non-empty
      list of its own has no dependents and no children, so it is reported
      as safe to delete. */
  lemma {:induction false} SafeWhenUnused(tree: seq<TreeEntry>, name: string)
    requires forall k :: 0 <= k < |tree| ==> !UsesChild(tree[k], name)
    requires forall k :: 0 <= k < |tree| && tree[k].parent == name ==> tree[k].children.None? || tree[k].children.value == []
    ensures Dependents(tree, name) == []
    ensures ChildrenOf(tree, name).None? || ChildrenOf(tree, name).value == []
    decreases |tree|
  {
    if tree != [] {
      SafeWhenUnused(tree[..|tree| - 1], name);
    }
  }
}
