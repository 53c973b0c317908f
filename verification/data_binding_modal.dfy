/**
 * The data-binding dialog: the tree of data sources and their tags the user
 * picks a tag from, its case-insensitive search filter, and the binding the
 * dialog saves. Fetching the sources and parsing their tag lists are I/O;
 * the parsed lists are inputs.
 */
module DataBindingModal {
  import opened Wrappers
  import opened Text
  import opened Json
  import opened Scene
  import opened DataTags

  /** A data source with its parsed tag list (`config ? JSON.parse(config) : []`). */
  datatype DataSource = DataSource(id: int, name: string, config: Option<seq<DataTag>>)

  /**
   * A node of the source tree: its title and key, its children (a tag leaf
   * has none), and, for a leaf, the source id and tag key it selects.
   */
  datatype TreeNode = TreeNode(title: string, key: string, children: Children<TreeNode>, leaf: Option<(int, string)>)

  /** `source-<id>` */
  function SourceKey(id: int): (r: string)
    ensures |r| > 0 && r[0] == 's'
  {
    "source-" + IntToString(id)
  }

  /** `<sourceId>|<tagKey>` */
  function LeafKey(id: int, tagKey: string): (r: string)
    ensures |r| > 0 && (r[0] == '-' || '0' <= r[0] <= '9')
  {
    var n := IntToString(id);
    assert id >= 0 ==> n == NatToString(id);
    n + "|" + tagKey
  }

  /** A source node's key never equals a tag leaf's key. */
  lemma KeysDistinct(a: int, b: int, tagKey: string)
    ensures SourceKey(a) != LeafKey(b, tagKey)
  {
    assert SourceKey(a)[0] != LeafKey(b, tagKey)[0];
  }

  /** The leaf for one tag: titled by its label, or by its key when the label is empty. */
  function TagLeaf(sourceId: int, tag: DataTag): (r: TreeNode)
    ensures r.key == LeafKey(sourceId, tag.key) && r.children.NoChildren? && r.leaf == Some((sourceId, tag.key))
    ensures r.title == if tag.labelText != "" then tag.labelText else tag.key
  {
    TreeNode(if tag.labelText != "" then tag.labelText else tag.key, LeafKey(sourceId, tag.key), NoChildren, Some((sourceId, tag.key)))
  }

  /** `treeData`: one node per source, with one leaf per tag. */
  function TreeData(sources: seq<DataSource>): (r: seq<TreeNode>)
    ensures |r| == |sources|
    ensures forall i :: 0 <= i < |r| ==>
      r[i].title == sources[i].name && r[i].key == SourceKey(sources[i].id) && r[i].leaf.None? && r[i].children.ChildList?
    ensures forall i :: 0 <= i < |r| ==>
      var tags := if sources[i].config.Some? then sources[i].config.value else [];
      |r[i].children.items| == |tags| &&
      forall j :: 0 <= j < |tags| ==> r[i].children.items[j] == TagLeaf(sources[i].id, tags[j])
  {
    seq(|sources|, i requires 0 <= i < |sources| =>
      var s := sources[i];
      var tags := if s.config.Some? then s.config.value else [];
      TreeNode(s.name, SourceKey(s.id), ChildList(seq(|tags|, j requires 0 <= j < |tags| => TagLeaf(s.id, tags[j]))), None))
  }

  /** `title.toLowerCase().includes(search.toLowerCase())` */
  predicate Matches(title: string, search: string)
  {
    Contains(Lower(title), Lower(search))
  }

  /**
   * The search filter: a node is kept when its title matches or any of its
   * children is kept, and a kept node carries its filtered children (an empty
   * list for a leaf).
   */
  function Filter(nodes: seq<TreeNode>, search: string): (r: seq<TreeNode>)
    ensures |r| <= |nodes|
    ensures forall i :: 0 <= i < |r| ==> r[i].children.ChildList? && (Matches(r[i].title, search) || |r[i].children.items| > 0)
    decreases nodes
  {
    if |nodes| == 0 then []
    else
      var n := nodes[0];
      var kids := if n.children.ChildList? then Filter(n.children.items, search) else [];
      (if Matches(n.title, search) || |kids| > 0 then [n.(children := ChildList(kids))] else []) + Filter(nodes[1..], search)
  }

  /** `filteredTreeData`: no search shows the whole tree. */
  function FilteredTreeData(tree: seq<TreeNode>, search: string): (r: seq<TreeNode>)
    ensures search == "" ==> r == tree
  {
    if search == "" then tree else Filter(tree, search)
  }

  /** Some node of the forest, at any depth, has a matching title. */
  predicate AnyMatch(nodes: seq<TreeNode>, search: string)
    decreases nodes
  {
    |nodes| > 0 &&
    (Matches(nodes[0].title, search) ||
     (nodes[0].children.ChildList? && AnyMatch(nodes[0].children.items, search)) ||
     AnyMatch(nodes[1..], search))
  }

  /** The filter keeps something exactly when some title in the forest matches. */
  lemma {:induction false} FilterNonEmpty(nodes: seq<TreeNode>, search: string)
    ensures |Filter(nodes, search)| > 0 <==> AnyMatch(nodes, search)
    decreases nodes
  {
    if |nodes| > 0 {
      if nodes[0].children.ChildList? {
        FilterNonEmpty(nodes[0].children.items, search);
      }
      FilterNonEmpty(nodes[1..], search);
    }
  }

  /** A node is kept, with its filtered children, exactly when it or a descendant matches. */
  lemma FilterOne(n: TreeNode, search: string)
    ensures var kids := if n.children.ChildList? then Filter(n.children.items, search) else [];
      Filter([n], search) == if Matches(n.title, search) || |kids| > 0 then [n.(children := ChildList(kids))] else []
    ensures |Filter([n], search)| == 1 <==>
      Matches(n.title, search) || (n.children.ChildList? && AnyMatch(n.children.items, search))
  {
    assert [n][1..] == [];
    if n.children.ChildList? {
      FilterNonEmpty(n.children.items, search);
    }
  }

  /** Filtering goes node by node: kept nodes keep their relative order. */
  lemma {:induction false} FilterAppend(a: seq<TreeNode>, b: seq<TreeNode>, search: string)
    ensures Filter(a + b, search) == Filter(a, search) + Filter(b, search)
    decreases a
  {
    if |a| == 0 {
      assert a + b == b;
    } else {
      assert (a + b)[0] == a[0];
      assert (a + b)[1..] == a[1..] + b;
      FilterAppend(a[1..], b, search);
    }
  }

  /** A source whose name matches but none of whose tags do is shown with no tags under it. */
  lemma MatchingSourceNoTags(n: TreeNode, search: string)
    requires Matches(n.title, search) && n.children.ChildList?
    requires !AnyMatch(n.children.items, search)
    ensures Filter([n], search) == [n.(children := ChildList([]))]
  {
    FilterNonEmpty(n.children.items, search);
    FilterOne(n, search);
  }

  /** Lower-casing twice is lower-casing once. */
  lemma {:induction false} LowerIdempotent(s: string)
    ensures Lower(Lower(s)) == Lower(s)
    decreases |s|
  {
    if |s| > 0 {
      LowerIdempotent(s[1..]);
      assert Lower(s) == Lower(s[..1]) + Lower(s[1..]) by {
        LowerAppend(s[..1], s[1..]);
        assert s[..1] + s[1..] == s;
      }
    }
  }

  /** The search is case-insensitive: lower-casing the search text or the title changes no match. */
  lemma MatchCaseInsensitive(title: string, search: string)
    ensures Matches(title, Lower(search)) == Matches(title, search)
    ensures Matches(Lower(title), search) == Matches(title, search)
  {
    LowerIdempotent(search);
    LowerIdempotent(title);
  }

  /** `handleConfirm`: nothing is saved without a tag and a (non-zero) source; otherwise an enabled binding. */
  function HandleConfirm(selectedKey: Option<string>, selectedSourceId: Option<int>, expression: string): (r: Option<Binding>)
    ensures r.None? <==> !Given(selectedKey) || selectedSourceId.None? || selectedSourceId.value == 0
    ensures r.Some? ==> r.value == Binding(true, selectedSourceId.value, selectedKey.value, Some(expression))
  {
    if !Given(selectedKey) || selectedSourceId.None? || selectedSourceId.value == 0 then None
    else Some(Binding(true, selectedSourceId.value, selectedKey.value, Some(expression)))
  }

  /** `handleSelect`: picking a tag leaf selects its tag and source; any other node leaves the selection. */
  function HandleSelect(node: TreeNode, selectedKey: Option<string>, selectedSourceId: Option<int>): (r: (Option<string>, Option<int>))
    ensures node.leaf.Some? ==> r == (Some(node.leaf.value.1), Some(node.leaf.value.0))
    ensures node.leaf.None? ==> r == (selectedKey, selectedSourceId)
  {
    if node.leaf.Some? then (Some(node.leaf.value.1), Some(node.leaf.value.0)) else (selectedKey, selectedSourceId)
  }

  /** Selecting a tag leaf of a source with a non-zero id and a non-empty key makes the dialog ready to save that tag. */
  lemma SelectThenConfirm(sourceId: int, tag: DataTag, k: Option<string>, s: Option<int>, expression: string)
    requires sourceId != 0 && tag.key != ""
    ensures var sel := HandleSelect(TagLeaf(sourceId, tag), k, s);
      HandleConfirm(sel.0, sel.1, expression) == Some(Binding(true, sourceId, tag.key, Some(expression)))
  {
  }
}
