/** The tree as the dashboard's flowchart code and deletion preview read it:
    an object from parent name to a list of [child, amount] pairs. The
    object is a sequence of entries in key order; its keys are distinct, as
    an object's are. */
module ClientTree {
  import opened Wrappers

  datatype ChildLink = ChildLink(child: string, amount: real)

  /** One key of the tree object; `children` is `None` for a null list. */
  datatype TreeEntry = TreeEntry(parent: string, children: Option<seq<ChildLink>>)

  /** `treeData[name]`: the list stored under the first key equal to `name`. */
  function ChildrenOf(tree: seq<TreeEntry>, name: string): (r: Option<seq<ChildLink>>)
    ensures r.Some? ==> exists k :: 0 <= k < |tree| && tree[k].parent == name && tree[k].children == r
    ensures (forall k :: 0 <= k < |tree| ==> tree[k].parent != name || tree[k].children.None?) ==> r.None?
  {
    if tree == [] then None
    else if tree[0].parent == name then tree[0].children
    else
      var r := ChildrenOf(tree[1..], name);
      assert r.Some? ==> exists k :: 1 <= k < |tree| && tree[k].parent == name && tree[k].children == r by {
        if r.Some? {
          var k :| 0 <= k < |tree[1..]| && tree[1..][k].parent == name && tree[1..][k].children == r;
          assert tree[k + 1] == tree[1..][k];
        }
      }
      r
  }

  /** The names listed under `name`, in list order; none when `name` is not a
      key or its list is null. */
  function Kids(tree: seq<TreeEntry>, name: string): seq<string> {
    match ChildrenOf(tree, name)
    case None => []
    case Some(links) => seq(|links|, j requires 0 <= j < |links| => links[j].child)
  }

  /** Whatever a list holds appears among the listed names. */
  lemma KidsAreChildNames(tree: seq<TreeEntry>, name: string, c: string)
    requires c in Kids(tree, name)
    ensures c in ChildNames(tree)
  {
    var links := ChildrenOf(tree, name).value;
    var j :| 0 <= j < |links| && Kids(tree, name)[j] == c;
    var k :| 0 <= k < |tree| && tree[k].parent == name && tree[k].children == Some(links);
    assert tree[k].children.value[j].child == c;
  }

  /** Every name that appears in some list. */
  function ChildNames(tree: seq<TreeEntry>): set<string> {
    set k, j | 0 <= k < |tree| && tree[k].children.Some? && 0 <= j < |tree[k].children.value| :: tree[k].children.value[j].child
  }
}
