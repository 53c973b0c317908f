/**
 * Tree operations of the editor store (`store/utils.ts`): cloning, updating,
 * removing and duplicating nodes of a model's scene graph; finding, updating,
 * removing, duplicating and reverting objects of the scene forest; the undo
 * history cap; fresh ids for a copied object's descendants; the dotted-path
 * setter and the data-binding application that uses it.
 *
 * Fresh ids (`generateUUID`) are drawn from `mint`, indexed by a counter that
 * each operation threads through in the order the source draws them.
 */
module StoreUtils {
  import opened Wrappers
  import opened Json
  import opened Text
  import opened Scene

  /** The suffix the editor appends to the name of a copy. */
  const CopySuffix: string := " (副本)"

  /** The number of undo snapshots kept. */
  const HistoryLimit: nat := 50

  // =====================================================================
  // What the tree operations leave alone
  // =====================================================================

  /** A node's own fields, without its children. */
  function Own(n: Node): Node
  {
    n.(children := NoChildren)
  }

  /** An object's own fields, without its children. */
  function ObjOwn(o: SceneObject): SceneObject
  {
    o.(children := NoChildren)
  }

  /** The own fields of each node of a sequence. */
  function Owns(s: seq<Node>): (r: seq<Node>)
    ensures |r| == |s| && forall i :: 0 <= i < |s| ==> r[i] == Own(s[i])
  {
    seq(|s|, i requires 0 <= i < |s| => Own(s[i]))
  }

  /** The own fields of each object of a sequence. */
  function ObjOwns(s: seq<SceneObject>): (r: seq<SceneObject>)
    ensures |r| == |s| && forall i :: 0 <= i < |s| ==> r[i] == ObjOwn(s[i])
  {
    seq(|s|, i requires 0 <= i < |s| => ObjOwn(s[i]))
  }

  lemma OwnsAppend(a: seq<Node>, b: seq<Node>)
    ensures Owns(a + b) == Owns(a) + Owns(b)
  {
    assert forall i :: 0 <= i < |a + b| ==> (a + b)[i] == if i < |a| then a[i] else b[i - |a|];
  }

  lemma ObjOwnsAppend(a: seq<SceneObject>, b: seq<SceneObject>)
    ensures ObjOwns(a + b) == ObjOwns(a) + ObjOwns(b)
  {
    assert forall i :: 0 <= i < |a + b| ==> (a + b)[i] == if i < |a| then a[i] else b[i - |a|];
  }

  /**
   * Two pre-orders of one tree, before and after an operation: position by
   * position, every node without the id has kept its own fields.
   */
  predicate OnlyNodesWithId(after: seq<Node>, before: seq<Node>, id: string)
  {
    |after| == |before| && forall i :: 0 <= i < |before| && before[i].id != id ==> Own(after[i]) == Own(before[i])
  }

  /** The same for two pre-orders of a forest of objects. */
  predicate OnlyObjectsWithId(after: seq<SceneObject>, before: seq<SceneObject>, id: string)
  {
    |after| == |before| && forall i :: 0 <= i < |before| && before[i].id != id ==> ObjOwn(after[i]) == ObjOwn(before[i])
  }

  lemma OnlyNodesWithIdAppend(a1: seq<Node>, b1: seq<Node>, a2: seq<Node>, b2: seq<Node>, id: string)
    requires OnlyNodesWithId(a1, b1, id) && OnlyNodesWithId(a2, b2, id)
    ensures OnlyNodesWithId(a1 + a2, b1 + b2, id)
  {
    assert forall i :: 0 <= i < |b1 + b2| ==> (b1 + b2)[i] == if i < |b1| then b1[i] else b2[i - |b1|];
    assert forall i :: 0 <= i < |a1 + a2| ==> (a1 + a2)[i] == if i < |a1| then a1[i] else a2[i - |a1|];
  }

  lemma OnlyObjectsWithIdAppend(a1: seq<SceneObject>, b1: seq<SceneObject>, a2: seq<SceneObject>, b2: seq<SceneObject>, id: string)
    requires OnlyObjectsWithId(a1, b1, id) && OnlyObjectsWithId(a2, b2, id)
    ensures OnlyObjectsWithId(a1 + a2, b1 + b2, id)
  {
    assert forall i :: 0 <= i < |b1 + b2| ==> (b1 + b2)[i] == if i < |b1| then b1[i] else b2[i - |b1|];
    assert forall i :: 0 <= i < |a1 + a2| ==> (a1 + a2)[i] == if i < |a1| then a1[i] else a2[i - |a1|];
  }

  /** `a` is `b` with some elements left out and the others in their order. */
  predicate SubSeq<T(==)>(a: seq<T>, b: seq<T>)
    decreases |b|
  {
    |a| == 0 || (|b| > 0 && ((a[0] == b[0] && SubSeq(a[1..], b[1..])) || SubSeq(a, b[1..])))
  }

  lemma {:induction false} SubSeqRefl<T>(a: seq<T>)
    ensures SubSeq(a, a)
    decreases |a|
  {
    if |a| > 0 {
      SubSeqRefl(a[1..]);
    }
  }

  /** Leaving out a whole prefix keeps a subsequence one. */
  lemma {:induction false} SubSeqSkip<T>(a: seq<T>, b: seq<T>, c: seq<T>)
    requires SubSeq(a, c)
    ensures SubSeq(a, b + c)
    decreases |b|
  {
    if |b| > 0 && |a| > 0 {
      assert (b + c)[1..] == b[1..] + c;
      SubSeqSkip(a, b[1..], c);
    } else if |b| == 0 {
      assert b + c == c;
    }
  }

  /** Adding elements at the end keeps a subsequence one. */
  lemma SubSeqExtend<T>(a: seq<T>, b: seq<T>, c: seq<T>)
    requires SubSeq(a, b)
    ensures SubSeq(a, b + c)
  {
    assert a + [] == a;
    SubSeqAppend(a, b, [], c);
  }

  /** Subsequences of two parts make a subsequence of the whole. */
  lemma {:induction false} SubSeqAppend<T>(a1: seq<T>, b1: seq<T>, a2: seq<T>, b2: seq<T>)
    requires SubSeq(a1, b1) && SubSeq(a2, b2)
    ensures SubSeq(a1 + a2, b1 + b2)
    decreases |b1|
  {
    if |a1| == 0 {
      assert a1 + a2 == a2;
      SubSeqSkip(a2, b1, b2);
    } else {
      assert (a1 + a2)[0] == a1[0] && (a1 + a2)[1..] == a1[1..] + a2;
      assert (b1 + b2)[0] == b1[0] && (b1 + b2)[1..] == b1[1..] + b2;
      if a1[0] == b1[0] && SubSeq(a1[1..], b1[1..]) {
        SubSeqAppend(a1[1..], b1[1..], a2, b2);
      } else {
        SubSeqAppend(a1, b1[1..], a2, b2);
      }
    }
  }

  // =====================================================================
  // Scene graph nodes
  // =====================================================================

  /** `node.originalName || node.name` */
  function OriginalNameOf(n: Node): string
  {
    if n.originalName.Some? && n.originalName.value != "" then n.originalName.value else n.name
  }

  /** `cloneNode`: a copy of the subtree with fresh ids, drawn in pre-order from `k`. */
  function CloneNode(n: Node, k: nat, mint: nat -> string): (r: (Node, nat))
    decreases n, 1
  {
    var kids := if n.children.ChildList? then CloneNodes(n.children.items, k + 1, mint) else ([], k + 1);
    (n.(id := mint(k),
        sourceNodeId := Some(n.id),
        originalName := Some(OriginalNameOf(n)),
        children := if n.children.ChildList? then ChildList(kids.0) else NoChildren),
     kids.1)
  }

  function CloneNodes(ns: seq<Node>, k: nat, mint: nat -> string): (r: (seq<Node>, nat))
    ensures |r.0| == |ns|
    decreases ns, 0
  {
    if |ns| == 0 then ([], k)
    else
      var first := CloneNode(ns[0], k, mint);
      var rest := CloneNodes(ns[1..], first.1, mint);
      ([first.0] + rest.0, rest.1)
  }

  /** `c` is the copy of `o` that received id `id`: same name, properties, spread keys and child count. */
  predicate ClonedFrom(c: Node, o: Node, id: string)
  {
    c.id == id && c.name == o.name && c.props == o.props && c.spread == o.spread
    && c.sourceNodeId == Some(o.id) && c.originalName == Some(OriginalNameOf(o))
    && c.children.ChildList? == o.children.ChildList? && |NodeKids(c)| == |NodeKids(o)|
  }

  /** Position by position, `cs` copies `os` with the ids `mint(k)`, `mint(k + 1)`, ... */
  predicate ClonedSeq(cs: seq<Node>, os: seq<Node>, k: nat, mint: nat -> string)
  {
    |cs| == |os| && forall i :: 0 <= i < |cs| ==> ClonedFrom(cs[i], os[i], mint(k + i))
  }

  lemma ClonedSeqAppend(c1: seq<Node>, o1: seq<Node>, c2: seq<Node>, o2: seq<Node>, k: nat, k1: nat, mint: nat -> string)
    requires ClonedSeq(c1, o1, k, mint) && k1 == k + |o1| && ClonedSeq(c2, o2, k1, mint)
    ensures ClonedSeq(c1 + c2, o1 + o2, k, mint)
  {
    forall i | 0 <= i < |c1 + c2|
      ensures ClonedFrom((c1 + c2)[i], (o1 + o2)[i], mint(k + i))
    {
      if i >= |c1| {
        var j := i - |c1|;
        assert (c1 + c2)[i] == c2[j] && (o1 + o2)[i] == o2[j];
        assert ClonedFrom(c2[j], o2[j], mint(k1 + j));
        assert k1 + j == k + i;
      } else {
        assert (c1 + c2)[i] == c1[i] && (o1 + o2)[i] == o1[i];
      }
    }
  }

  /** A single copied node is a copied one-node sequence. */
  lemma ClonedOne(c: Node, n: Node, k: nat, mint: nat -> string)
    requires ClonedFrom(c, n, mint(k))
    ensures ClonedSeq([c], [n], k, mint)
  {
    assert k + 0 == k;
  }

  /**
   * `cloneNode` preserves the tree: in pre-order, the i-th node of the copy has
   * id `mint(k + i)`, the name, properties and child count of the i-th original
   * node, that node's id as `sourceNodeId` and its original name; exactly one
   * fresh id is drawn per node.
   */
  lemma {:induction false} CloneNodeShape(n: Node, k: nat, mint: nat -> string)
    ensures ClonedSeq(Flat(CloneNode(n, k, mint).0), Flat(n), k, mint)
    ensures CloneNode(n, k, mint).1 == k + |Flat(n)|
    decreases n, 1
  {
    var c := CloneNode(n, k, mint).0;
    ClonedOne(c, n, k, mint);
    if n.children.ChildList? {
      CloneNodesShape(n.children.items, k + 1, mint);
      var fk, fnk := FlatList(NodeKids(c)), FlatList(NodeKids(n));
      ClonedSeqAppend([c], [n], fk, fnk, k, k + 1, mint);
    } else {
      assert Flat(c) == [c] && Flat(n) == [n];
    }
  }

  lemma {:induction false} CloneNodesShape(ns: seq<Node>, k: nat, mint: nat -> string)
    ensures ClonedSeq(FlatList(CloneNodes(ns, k, mint).0), FlatList(ns), k, mint)
    ensures CloneNodes(ns, k, mint).1 == k + |FlatList(ns)|
    decreases ns, 0
  {
    if |ns| > 0 {
      var first := CloneNode(ns[0], k, mint);
      var rest := CloneNodes(ns[1..], first.1, mint);
      CloneNodeShape(ns[0], k, mint);
      CloneNodesShape(ns[1..], first.1, mint);
      ClonedCons(first.0, rest.0, ns[0], ns[1..], k, first.1, mint);
      assert [ns[0]] + ns[1..] == ns;
    }
  }

  /** A copied tree before a copied forest, the ids running on, is the copy of the whole forest. */
  lemma ClonedCons(c: Node, cs: seq<Node>, n: Node, ns: seq<Node>, k: nat, k1: nat, mint: nat -> string)
    requires ClonedSeq(Flat(c), Flat(n), k, mint) && k1 == k + |Flat(n)|
    requires ClonedSeq(FlatList(cs), FlatList(ns), k1, mint)
    ensures ClonedSeq(FlatList([c] + cs), FlatList([n] + ns), k, mint)
  {
    var fc, fn, fcs, fns := Flat(c), Flat(n), FlatList(cs), FlatList(ns);
    FlatListCons(c, cs);
    FlatListCons(n, ns);
    ClonedSeqAppend(fc, fn, fcs, fns, k, k1, mint);
  }

  /** A forest in pre-order: its first tree, then the rest. */
  lemma FlatListCons(x: Node, rest: seq<Node>)
    ensures FlatList([x] + rest) == Flat(x) + FlatList(rest)
  {
    assert ([x] + rest)[0] == x && ([x] + rest)[1..] == rest;
  }

  /** With an injective id source, the ids of a copy are pairwise distinct. */
  lemma CloneIdsDistinct(n: Node, k: nat, mint: nat -> string, i: nat, j: nat)
    requires forall a: nat, b: nat :: a != b ==> mint(a) != mint(b)
    requires i < j < |Flat(n)|
    ensures |Flat(CloneNode(n, k, mint).0)| == |Flat(n)|
    ensures Flat(CloneNode(n, k, mint).0)[i].id != Flat(CloneNode(n, k, mint).0)[j].id
  {
    CloneNodeShape(n, k, mint);
    var f := Flat(CloneNode(n, k, mint).0);
    assert ClonedFrom(f[i], Flat(n)[i], mint(k + i));
    assert ClonedFrom(f[j], Flat(n)[j], mint(k + j));
  }

  /** `findNodeInTree`: the first node in pre-order with the id. */
  function FindNodeInTree(n: Node, id: string): Option<Node>
    decreases n, 1
  {
    if n.id == id then Some(n)
    else if n.children.ChildList? then FindInNodes(n.children.items, id)
    else None
  }

  function FindInNodes(ns: seq<Node>, id: string): Option<Node>
    decreases ns, 0
  {
    if |ns| == 0 then None
    else
      var found := FindNodeInTree(ns[0], id);
      if found.Some? then found else FindInNodes(ns[1..], id)
  }

  /** The first node of a sequence with the id; present iff some node has it. */
  function FirstNodeWithId(s: seq<Node>, id: string): (r: Option<Node>)
    ensures r.Some? <==> exists i :: 0 <= i < |s| && s[i].id == id
    ensures r.Some? ==> r.value.id == id
  {
    if |s| == 0 then None
    else if s[0].id == id then Some(s[0])
    else
      var r := FirstNodeWithId(s[1..], id);
      assert forall i :: 1 <= i < |s| ==> s[i] == s[1..][i - 1];
      r
  }

  lemma {:induction false} FirstNodeAppend(a: seq<Node>, b: seq<Node>, id: string)
    ensures FirstNodeWithId(a + b, id) == if FirstNodeWithId(a, id).Some? then FirstNodeWithId(a, id) else FirstNodeWithId(b, id)
  {
    if |a| > 0 {
      assert (a + b)[0] == a[0] && (a + b)[1..] == a[1..] + b;
      FirstNodeAppend(a[1..], b, id);
    } else {
      assert a + b == b;
    }
  }

  /**
   * `findNodeInTree` returns the first node with the id in pre-order, and
   * nothing exactly when no node of the tree has the id.
   */
  lemma {:induction false} FindNodeInTreeFirst(n: Node, id: string)
    ensures FindNodeInTree(n, id) == FirstNodeWithId(Flat(n), id)
    decreases n, 1
  {
    if n.children.ChildList? {
      FindInNodesFirst(n.children.items, id);
    }
  }

  lemma {:induction false} FindInNodesFirst(ns: seq<Node>, id: string)
    ensures FindInNodes(ns, id) == FirstNodeWithId(FlatList(ns), id)
    decreases ns, 0
  {
    if |ns| > 0 {
      FindNodeInTreeFirst(ns[0], id);
      FindInNodesFirst(ns[1..], id);
      FirstNodeAppend(Flat(ns[0]), FlatList(ns[1..]), id);
    }
  }

  /** `updateNodeInTree`: merge the update into matching nodes, without descending below a match. */
  function UpdateNodeInTree(n: Node, target: string, p: Patch): (r: Node)
    ensures r.id == n.id
    decreases n, 1
  {
    if n.id == target then MergeNode(n, p)
    else if n.children.ChildList? then n.(children := ChildList(UpdateNodes(n.children.items, target, p)))
    else n
  }

  function UpdateNodes(ns: seq<Node>, target: string, p: Patch): (r: seq<Node>)
    ensures |r| == |ns|
    decreases ns, 0
  {
    if |ns| == 0 then [] else [UpdateNodeInTree(ns[0], target, p)] + UpdateNodes(ns[1..], target, p)
  }

  /**
   * After `updateNodeInTree`, the first node with the target id is the
   * update merged into the node that was found there before.
   */
  lemma {:induction false} UpdateNodeInTreeFound(n: Node, target: string, p: Patch)
    ensures FindNodeInTree(UpdateNodeInTree(n, target, p), target)
         == if FindNodeInTree(n, target).Some? then Some(MergeNode(FindNodeInTree(n, target).value, p)) else None
    decreases n, 1
  {
    if n.id != target && n.children.ChildList? {
      UpdateNodesFound(n.children.items, target, p);
    }
  }

  lemma {:induction false} UpdateNodesFound(ns: seq<Node>, target: string, p: Patch)
    ensures FindInNodes(UpdateNodes(ns, target, p), target)
         == if FindInNodes(ns, target).Some? then Some(MergeNode(FindInNodes(ns, target).value, p)) else None
    decreases ns, 0
  {
    if |ns| > 0 {
      var u := UpdateNodes(ns, target, p);
      assert u[0] == UpdateNodeInTree(ns[0], target, p) && u[1..] == UpdateNodes(ns[1..], target, p);
      UpdateNodeInTreeFound(ns[0], target, p);
      UpdateNodesFound(ns[1..], target, p);
    }
  }

  /** `updateNodeInTree` keeps every node's id and the shape of the tree. */
  lemma {:induction false} UpdateNodeInTreeIds(n: Node, target: string, p: Patch)
    ensures NodeIds(Flat(UpdateNodeInTree(n, target, p))) == NodeIds(Flat(n))
    decreases n, 1
  {
    if n.id != target && n.children.ChildList? {
      UpdateNodesIds(n.children.items, target, p);
    }
  }

  lemma {:induction false} UpdateNodesIds(ns: seq<Node>, target: string, p: Patch)
    ensures NodeIds(FlatList(UpdateNodes(ns, target, p))) == NodeIds(FlatList(ns))
    decreases ns, 0
  {
    if |ns| > 0 {
      var u := UpdateNodes(ns, target, p);
      assert u[0] == UpdateNodeInTree(ns[0], target, p) && u[1..] == UpdateNodes(ns[1..], target, p);
      UpdateNodeInTreeIds(ns[0], target, p);
      UpdateNodesIds(ns[1..], target, p);
      NodeIdsAppend(Flat(u[0]), FlatList(u[1..]));
      NodeIdsAppend(Flat(ns[0]), FlatList(ns[1..]));
    }
  }

  lemma {:induction false} NodeIdsAppend(a: seq<Node>, b: seq<Node>)
    ensures NodeIds(a + b) == NodeIds(a) + NodeIds(b)
  {
  }

  /**
   * `updateNodeInTree` changes only nodes with the target id, and nothing
   * below a matching node: its descendants stay exactly as they were.
   */
  lemma {:induction false} UpdateNodeInTreeFrame(n: Node, target: string, p: Patch)
    ensures OnlyNodesWithId(Flat(UpdateNodeInTree(n, target, p)), Flat(n), target)
    ensures n.id == target ==> Flat(UpdateNodeInTree(n, target, p))[1..] == Flat(n)[1..]
    decreases n, 1
  {
    var r := UpdateNodeInTree(n, target, p);
    var rest := FlatList(NodeKids(n));
    assert Flat(n) == [n] + rest;
    if n.id == target {
      assert Flat(r) == [r] + rest;
      OnlyNodesWithIdAppend([r], [n], rest, rest, target);
    } else if n.children.ChildList? {
      UpdateNodesFrame(n.children.items, target, p);
      assert Flat(r) == [r] + FlatList(r.children.items);
      OnlyNodesWithIdAppend([r], [n], FlatList(r.children.items), rest, target);
    }
  }

  lemma {:induction false} UpdateNodesFrame(ns: seq<Node>, target: string, p: Patch)
    ensures OnlyNodesWithId(FlatList(UpdateNodes(ns, target, p)), FlatList(ns), target)
    decreases ns, 0
  {
    if |ns| > 0 {
      var u := UpdateNodes(ns, target, p);
      assert u[0] == UpdateNodeInTree(ns[0], target, p) && u[1..] == UpdateNodes(ns[1..], target, p);
      UpdateNodeInTreeFrame(ns[0], target, p);
      UpdateNodesFrame(ns[1..], target, p);
      OnlyNodesWithIdAppend(Flat(u[0]), Flat(ns[0]), FlatList(u[1..]), FlatList(ns[1..]), target);
    }
  }

  /** Some child in the list has the id (`findIndex(...) !== -1`). */
  predicate HasChildWithId(cs: seq<Node>, id: string)
  {
    exists i :: 0 <= i < |cs| && cs[i].id == id
  }

  /** `children.filter(c => c.id !== id)` */
  function WithoutNode(cs: seq<Node>, id: string): (r: seq<Node>)
    ensures |r| <= |cs|
    ensures forall i :: 0 <= i < |r| ==> r[i].id != id
    ensures forall c :: c in r <==> c in cs && c.id != id
  {
    if |cs| == 0 then []
    else if cs[0].id == id then WithoutNode(cs[1..], id)
    else [cs[0]] + WithoutNode(cs[1..], id)
  }

  /**
   * `removeNodeFromTree`: when a direct child has the id, drop every direct
   * child with it; otherwise recurse into every child. The root itself stays.
   */
  function RemoveNodeFromTree(n: Node, target: string): (r: Node)
    ensures r.id == n.id && r.name == n.name && r.props == n.props
    ensures r.children.ChildList? == n.children.ChildList?
    decreases n, 1
  {
    if n.children.ChildList? then
      var cs := n.children.items;
      if HasChildWithId(cs, target) then n.(children := ChildList(WithoutNode(cs, target)))
      else n.(children := ChildList(RemoveNodes(cs, target)))
    else n
  }

  function RemoveNodes(ns: seq<Node>, target: string): (r: seq<Node>)
    ensures |r| == |ns|
    decreases ns, 0
  {
    if |ns| == 0 then [] else [RemoveNodeFromTree(ns[0], target)] + RemoveNodes(ns[1..], target)
  }

  /**
   * Where a direct child has the id, the children after removal are exactly
   * the direct children with another id, untouched (nothing deeper is
   * visited), in their order, and there are fewer of them.
   */
  lemma RemoveNodeDirect(n: Node, target: string)
    requires n.children.ChildList? && HasChildWithId(n.children.items, target)
    ensures var r := RemoveNodeFromTree(n, target);
      r.children.ChildList? && !HasChildWithId(r.children.items, target)
      && |r.children.items| < |n.children.items|
      && (forall c :: c in r.children.items <==> c in n.children.items && c.id != target)
      && SubSeq(r.children.items, n.children.items)
  {
    var cs := n.children.items;
    var i :| 0 <= i < |cs| && cs[i].id == target;
    WithoutNodeShorter(cs, target, i);
    WithoutNodeOrder(cs, target);
  }

  /** The children `filter` keeps are in their original order. */
  lemma {:induction false} WithoutNodeOrder(cs: seq<Node>, id: string)
    ensures SubSeq(WithoutNode(cs, id), cs)
  {
    if |cs| > 0 {
      WithoutNodeOrder(cs[1..], id);
      var w := WithoutNode(cs, id);
      if cs[0].id != id {
        assert w[0] == cs[0] && w[1..] == WithoutNode(cs[1..], id);
      }
    }
  }

  /**
   * `removeNodeFromTree` only takes nodes out: the nodes left, each with its
   * own fields, are the tree's nodes in their pre-order with some left out.
   */
  lemma {:induction false} RemoveNodeKeeps(n: Node, target: string)
    ensures SubSeq(Owns(Flat(RemoveNodeFromTree(n, target))), Owns(Flat(n)))
    decreases n, 1
  {
    var r := RemoveNodeFromTree(n, target);
    if n.children.ChildList? {
      var cs := n.children.items;
      var rcs := r.children.items;
      if HasChildWithId(cs, target) {
        WithoutNodeKeeps(cs, target);
      } else {
        RemoveNodesKeeps(cs, target);
      }
      assert Flat(r) == [r] + FlatList(rcs) && Flat(n) == [n] + FlatList(cs);
      OwnsAppend([r], FlatList(rcs));
      OwnsAppend([n], FlatList(cs));
      assert Owns([r]) == Owns([n]);
      SubSeqRefl(Owns([n]));
      SubSeqAppend(Owns([r]), Owns([n]), Owns(FlatList(rcs)), Owns(FlatList(cs)));
    } else {
      SubSeqRefl(Owns(Flat(n)));
    }
  }

  lemma {:induction false} RemoveNodesKeeps(ns: seq<Node>, target: string)
    ensures SubSeq(Owns(FlatList(RemoveNodes(ns, target))), Owns(FlatList(ns)))
    decreases ns, 0
  {
    if |ns| > 0 {
      var r := RemoveNodes(ns, target);
      assert r[0] == RemoveNodeFromTree(ns[0], target) && r[1..] == RemoveNodes(ns[1..], target);
      RemoveNodeKeeps(ns[0], target);
      RemoveNodesKeeps(ns[1..], target);
      OwnsAppend(Flat(r[0]), FlatList(r[1..]));
      OwnsAppend(Flat(ns[0]), FlatList(ns[1..]));
      SubSeqAppend(Owns(Flat(r[0])), Owns(Flat(ns[0])), Owns(FlatList(r[1..])), Owns(FlatList(ns[1..])));
    }
  }

  /** The subtrees `filter` keeps stay whole: their nodes in pre-order, with some subtrees left out. */
  lemma {:induction false} WithoutNodeKeeps(cs: seq<Node>, id: string)
    ensures SubSeq(Owns(FlatList(WithoutNode(cs, id))), Owns(FlatList(cs)))
  {
    if |cs| > 0 {
      var w := WithoutNode(cs, id);
      WithoutNodeKeeps(cs[1..], id);
      var tail := Owns(FlatList(WithoutNode(cs[1..], id)));
      OwnsAppend(Flat(cs[0]), FlatList(cs[1..]));
      if cs[0].id == id {
        SubSeqSkip(tail, Owns(Flat(cs[0])), Owns(FlatList(cs[1..])));
      } else {
        assert w[0] == cs[0] && w[1..] == WithoutNode(cs[1..], id);
        OwnsAppend(Flat(cs[0]), FlatList(w[1..]));
        SubSeqRefl(Owns(Flat(cs[0])));
        SubSeqAppend(Owns(Flat(cs[0])), Owns(Flat(cs[0])), tail, Owns(FlatList(cs[1..])));
      }
    }
  }

  lemma {:induction false} WithoutNodeShorter(cs: seq<Node>, id: string, i: nat)
    requires i < |cs| && cs[i].id == id
    ensures |WithoutNode(cs, id)| < |cs|
  {
    if i > 0 {
      WithoutNodeShorter(cs[1..], id, i - 1);
    }
  }

  lemma {:induction false} WithoutNodeFlat(cs: seq<Node>, id: string)
    ensures |FlatList(WithoutNode(cs, id))| <= |FlatList(cs)|
  {
    if |cs| > 0 {
      WithoutNodeFlat(cs[1..], id);
      if cs[0].id != id {
        var w := WithoutNode(cs, id);
        assert w[0] == cs[0] && w[1..] == WithoutNode(cs[1..], id);
      }
    }
  }

  /** `removeNodeFromTree` only ever removes nodes: the tree never grows. */
  lemma {:induction false} RemoveNodeShrinks(n: Node, target: string)
    ensures |Flat(RemoveNodeFromTree(n, target))| <= |Flat(n)|
    decreases n, 1
  {
    if n.children.ChildList? {
      if HasChildWithId(n.children.items, target) {
        WithoutNodeFlat(n.children.items, target);
      } else {
        RemoveNodesShrinks(n.children.items, target);
      }
    }
  }

  lemma {:induction false} RemoveNodesShrinks(ns: seq<Node>, target: string)
    ensures |FlatList(RemoveNodes(ns, target))| <= |FlatList(ns)|
    decreases ns, 0
  {
    if |ns| > 0 {
      var r := RemoveNodes(ns, target);
      assert r[0] == RemoveNodeFromTree(ns[0], target) && r[1..] == RemoveNodes(ns[1..], target);
      RemoveNodeShrinks(ns[0], target);
      RemoveNodesShrinks(ns[1..], target);
    }
  }

  /** Some node of the sequence has the id. */
  predicate HasId(s: seq<Node>, id: string)
  {
    exists i :: 0 <= i < |s| && s[i].id == id
  }

  lemma HasIdAppend(a: seq<Node>, b: seq<Node>, id: string)
    ensures HasId(a + b, id) <==> HasId(a, id) || HasId(b, id)
  {
    if HasId(a + b, id) {
      var i :| 0 <= i < |a + b| && (a + b)[i].id == id;
      if i >= |a| { assert b[i - |a|] == (a + b)[i]; }
    }
    if HasId(b, id) {
      var i :| 0 <= i < |b| && b[i].id == id;
      assert (a + b)[|a| + i] == b[i];
    }
    if HasId(a, id) {
      var i :| 0 <= i < |a| && a[i].id == id;
      assert (a + b)[i] == a[i];
    }
  }

  /** The id occurs at some node strictly below `n`. */
  predicate BelowRoot(n: Node, id: string)
  {
    HasId(FlatList(NodeKids(n)), id)
  }

  lemma {:induction false} HasIdFlatList(ns: seq<Node>, id: string)
    ensures HasId(FlatList(ns), id) <==> exists j :: 0 <= j < |ns| && HasId(Flat(ns[j]), id)
  {
    if |ns| > 0 {
      HasIdFlatList(ns[1..], id);
      HasIdAppend(Flat(ns[0]), FlatList(ns[1..]), id);
      if exists j :: 0 <= j < |ns[1..]| && HasId(Flat(ns[1..][j]), id) {
        var j :| 0 <= j < |ns[1..]| && HasId(Flat(ns[1..][j]), id);
        assert ns[1..][j] == ns[j + 1];
      }
      if exists j :: 0 <= j < |ns| && HasId(Flat(ns[j]), id) {
        var j :| 0 <= j < |ns| && HasId(Flat(ns[j]), id);
        if j > 0 { assert ns[1..][j - 1] == ns[j]; }
      }
    }
  }

  /** A child that has the id, or has it below, puts the id below the parent. */
  lemma ChildBelow(n: Node, j: nat, id: string)
    requires j < |NodeKids(n)|
    ensures HasId(Flat(NodeKids(n)[j]), id) ==> BelowRoot(n, id)
  {
    HasIdFlatList(NodeKids(n), id);
  }

  /** A tree in which the id occurs nowhere below the root is left as it is. */
  lemma {:induction false} RemoveNodeAbsent(n: Node, target: string)
    requires !BelowRoot(n, target)
    ensures RemoveNodeFromTree(n, target) == n
    decreases n, 1
  {
    if n.children.ChildList? {
      var cs := n.children.items;
      forall j | 0 <= j < |cs|
        ensures !BelowRoot(cs[j], target) && cs[j].id != target
      {
        ChildBelow(n, j, target);
        HasIdAppend([cs[j]], FlatList(NodeKids(cs[j])), target);
        assert [cs[j]][0].id == cs[j].id;
      }
      RemoveNodesAbsent(cs, target);
    }
  }

  lemma {:induction false} RemoveNodesAbsent(ns: seq<Node>, target: string)
    requires forall j :: 0 <= j < |ns| ==> !BelowRoot(ns[j], target)
    ensures RemoveNodes(ns, target) == ns
    decreases ns, 0
  {
    if |ns| > 0 {
      RemoveNodeAbsent(ns[0], target);
      RemoveNodesAbsent(ns[1..], target);
      assert [ns[0]] + ns[1..] == ns;
    }
  }

  // =====================================================================
  // Scene objects
  // =====================================================================

  /** Some object of the sequence has the id. */
  predicate HasObjectId(s: seq<SceneObject>, id: string)
  {
    exists i :: 0 <= i < |s| && s[i].id == id
  }

  lemma HasObjectIdAppend(a: seq<SceneObject>, b: seq<SceneObject>, id: string)
    ensures HasObjectId(a + b, id) <==> HasObjectId(a, id) || HasObjectId(b, id)
  {
    if HasObjectId(a + b, id) {
      var i :| 0 <= i < |a + b| && (a + b)[i].id == id;
      if i >= |a| { assert b[i - |a|] == (a + b)[i]; }
    }
    if HasObjectId(b, id) {
      var i :| 0 <= i < |b| && b[i].id == id;
      assert (a + b)[|a| + i] == b[i];
    }
    if HasObjectId(a, id) {
      var i :| 0 <= i < |a| && a[i].id == id;
      assert (a + b)[i] == a[i];
    }
  }

  /** An object with the id occurs somewhere in the forest, at any depth. */
  predicate InForest(os: seq<SceneObject>, id: string)
  {
    HasObjectId(FlatObjects(os), id)
  }

  /** The pre-order of a forest ending in `o`: the rest, then `o`, then `o`'s subtree. */
  lemma FlatObjectsSnoc(a: seq<SceneObject>, o: SceneObject)
    ensures FlatObjects(a + [o]) == FlatObjects(a) + [o] + FlatObjects(Kids(o))
  {
    FlatObjectsAppend(a, [o]);
    assert [o][1..] == [];
  }

  /** The first object of a sequence with the id; present iff some object has it. */
  function FirstObjectWithId(s: seq<SceneObject>, id: string): (r: Option<SceneObject>)
    ensures r.Some? <==> HasObjectId(s, id)
    ensures r.Some? ==> r.value.id == id
  {
    if |s| == 0 then None
    else if s[0].id == id then Some(s[0])
    else
      var r := FirstObjectWithId(s[1..], id);
      assert forall i :: 1 <= i < |s| ==> s[i] == s[1..][i - 1];
      r
  }

  lemma {:induction false} FirstObjectAppend(a: seq<SceneObject>, b: seq<SceneObject>, id: string)
    ensures FirstObjectWithId(a + b, id)
         == if FirstObjectWithId(a, id).Some? then FirstObjectWithId(a, id) else FirstObjectWithId(b, id)
  {
    if |a| > 0 {
      assert (a + b)[0] == a[0] && (a + b)[1..] == a[1..] + b;
      FirstObjectAppend(a[1..], b, id);
    } else {
      assert a + b == b;
    }
  }

  /** `findObjectRecursive`: depth-first, an object before its children, children before later siblings. */
  function FindObjectRecursive(os: seq<SceneObject>, id: string): Option<SceneObject>
    decreases os
  {
    if |os| == 0 then None
    else if os[0].id == id then Some(os[0])
    else
      var inKids := if os[0].children.ChildList? then FindObjectRecursive(os[0].children.items, id) else None;
      if inKids.Some? then inKids else FindObjectRecursive(os[1..], id)
  }

  /**
   * `findObjectRecursive` returns the first object with the id in pre-order,
   * and nothing exactly when no object of the forest has the id.
   */
  lemma {:induction false} FindObjectRecursiveFirst(os: seq<SceneObject>, id: string)
    ensures FindObjectRecursive(os, id) == FirstObjectWithId(FlatObjects(os), id)
    decreases os
  {
    if |os| > 0 {
      var o := os[0];
      var sub := FlatObjects(Kids(o));
      FlatObjectsHead(os);
      FirstObjectCons(o, sub + FlatObjects(os[1..]), id);
      if o.children.ChildList? {
        FindObjectRecursiveFirst(o.children.items, id);
      }
      FindObjectRecursiveFirst(os[1..], id);
      FirstObjectAppend(sub, FlatObjects(os[1..]), id);
    }
  }

  /** A forest in pre-order: its first tree's root, that root's descendants, then the rest. */
  lemma FlatObjectsHead(os: seq<SceneObject>)
    requires |os| > 0
    ensures FlatObjects(os) == [os[0]] + (FlatObjects(Kids(os[0])) + FlatObjects(os[1..]))
  {
  }

  /** The first match of a sequence is its head when the head has the id. */
  lemma FirstObjectCons(o: SceneObject, rest: seq<SceneObject>, id: string)
    ensures FirstObjectWithId([o] + rest, id) == if o.id == id then Some(o) else FirstObjectWithId(rest, id)
  {
    assert ([o] + rest)[0] == o && ([o] + rest)[1..] == rest;
  }

  // ---------------------------------------------------------------------
  // findAndRemoveObject
  // ---------------------------------------------------------------------

  /**
   * The forest `findAndRemoveObject` returns: objects with the id are
   * dropped together with their subtrees, and every other object with a
   * non-empty child list gets that list processed the same way.
   */
  function RemoveObjects(list: seq<SceneObject>, id: string): seq<SceneObject>
    decreases list
  {
    if |list| == 0 then []
    else
      var o := list[|list| - 1];
      var prev := RemoveObjects(list[..|list| - 1], id);
      if o.id == id then prev
      else if o.children.ChildList? && |o.children.items| > 0 then
        prev + [o.(children := ChildList(RemoveObjects(o.children.items, id)))]
      else prev + [o]
  }

  /**
   * The object `findAndRemoveObject` reports: starting from `init`, every
   * match met in pre-order (never inside a matched subtree) replaces it, so the
   * last one wins.
   */
  function LastRemoved(list: seq<SceneObject>, id: string, init: Option<SceneObject>): Option<SceneObject>
    decreases list
  {
    if |list| == 0 then init
    else
      var o := list[|list| - 1];
      var prev := LastRemoved(list[..|list| - 1], id, init);
      if o.id == id then Some(o)
      else if o.children.ChildList? && |o.children.items| > 0 then LastRemoved(o.children.items, id, prev)
      else prev
  }

  /** The `process` closure: a fold over the list that records each match in `removed`. */
  method Process(list: seq<SceneObject>, id: string, removedIn: Option<SceneObject>)
    returns (out: seq<SceneObject>, removed: Option<SceneObject>)
    ensures out == RemoveObjects(list, id)
    ensures removed == LastRemoved(list, id, removedIn)
    decreases list
  {
    out := [];
    removed := removedIn;
    var i := 0;
    while i < |list|
      invariant 0 <= i <= |list|
      invariant out == RemoveObjects(list[..i], id)
      invariant removed == LastRemoved(list[..i], id, removedIn)
    {
      var obj := list[i];
      assert list[..i + 1][..i] == list[..i] && list[..i + 1][i] == obj;
      if obj.id == id {
        removed := Some(obj);
      } else if obj.children.ChildList? && |obj.children.items| > 0 {
        var newChildren, r := Process(obj.children.items, id, removed);
        removed := r;
        out := out + [obj.(children := ChildList(newChildren))];
      } else {
        out := out + [obj];
      }
      i := i + 1;
    }
    assert list[..|list|] == list;
  }

  /** `findAndRemoveObject`: the pruned forest and the removed object, if any. */
  method FindAndRemoveObject(objects: seq<SceneObject>, id: string)
    returns (result: seq<SceneObject>, removed: Option<SceneObject>)
    ensures result == RemoveObjects(objects, id)
    ensures removed == LastRemoved(objects, id, None)
    ensures !InForest(result, id)
    ensures removed.Some? <==> InForest(objects, id)
    ensures removed.Some? ==> removed.value.id == id
  {
    result, removed := Process(objects, id, None);
    RemoveObjectsGone(objects, id);
    LastRemovedFound(objects, id, None);
  }

  /** No object with the id is left anywhere in the pruned forest. */
  lemma {:induction false} RemoveObjectsGone(list: seq<SceneObject>, id: string)
    ensures !InForest(RemoveObjects(list, id), id)
    decreases list
  {
    if |list| > 0 {
      var o := list[|list| - 1];
      var prev := RemoveObjects(list[..|list| - 1], id);
      RemoveObjectsGone(list[..|list| - 1], id);
      if o.id != id {
        var x := if o.children.ChildList? && |o.children.items| > 0
          then o.(children := ChildList(RemoveObjects(o.children.items, id))) else o;
        FlatObjectsSnoc(prev, x);
        if o.children.ChildList? && |o.children.items| > 0 {
          RemoveObjectsGone(o.children.items, id);
        } else {
          assert FlatObjects(Kids(x)) == [];
        }
        HasObjectIdAppend(FlatObjects(prev), [x], id);
        HasObjectIdAppend(FlatObjects(prev) + [x], FlatObjects(Kids(x)), id);
      }
    }
  }

  /**
   * The removed object is present exactly when the id occurs in the forest;
   * it then carries the id, and otherwise the initial value is returned.
   */
  lemma {:induction false} LastRemovedFound(list: seq<SceneObject>, id: string, init: Option<SceneObject>)
    ensures !InForest(list, id) ==> LastRemoved(list, id, init) == init
    ensures InForest(list, id) ==> LastRemoved(list, id, init).Some? && LastRemoved(list, id, init).value.id == id
    decreases list
  {
    if |list| > 0 {
      var o := list[|list| - 1];
      var front := list[..|list| - 1];
      assert list == front + [o];
      FlatObjectsSnoc(front, o);
      HasObjectIdAppend(FlatObjects(front), [o], id);
      HasObjectIdAppend(FlatObjects(front) + [o], FlatObjects(Kids(o)), id);
      LastRemovedFound(front, id, init);
      if o.id != id && o.children.ChildList? && |o.children.items| > 0 {
        LastRemovedFound(o.children.items, id, LastRemoved(front, id, init));
      }
    }
  }

  /** `list.filter(x => x !== id)` on ids. */
  function WithoutId(ids: seq<string>, id: string): seq<string>
  {
    if |ids| == 0 then []
    else if ids[|ids| - 1] == id then WithoutId(ids[..|ids| - 1], id)
    else WithoutId(ids[..|ids| - 1], id) + [ids[|ids| - 1]]
  }

  /** At every level the survivors keep their relative order. */
  lemma {:induction false} RemoveObjectsOrder(list: seq<SceneObject>, id: string)
    ensures ObjectIds(RemoveObjects(list, id)) == WithoutId(ObjectIds(list), id)
    decreases list
  {
    if |list| > 0 {
      var n := |list|;
      var front, o := list[..n - 1], list[n - 1];
      var w := WithoutId(ObjectIds(front), id);
      assert WithoutId(ObjectIds(list), id) == if o.id == id then w else w + [o.id] by {
        var ids := ObjectIds(list);
        assert ids[..n - 1] == ObjectIds(front);
        assert ids[n - 1] == o.id;
      }
      RemoveObjectsOrder(front, id);
      var prev := RemoveObjects(front, id);
      if o.id != id {
        var last := if o.children.ChildList? && |o.children.items| > 0
          then o.(children := ChildList(RemoveObjects(o.children.items, id))) else o;
        assert RemoveObjects(list, id) == prev + [last];
        ObjectIdsSnoc(prev, last);
      }
    }
  }

  /**
   * `findAndRemoveObject` only takes objects out, at every depth: the objects
   * left, each with its own fields, are the forest's objects in their
   * pre-order with some left out.
   */
  lemma {:induction false} RemoveObjectsKeep(list: seq<SceneObject>, id: string)
    ensures SubSeq(ObjOwns(FlatObjects(RemoveObjects(list, id))), ObjOwns(FlatObjects(list)))
    decreases list
  {
    if |list| == 0 {
      return;
    }
    var n := |list|;
    var front, o := list[..n - 1], list[n - 1];
    assert list == front + [o];
    var prev := RemoveObjects(front, id);
    RemoveObjectsKeep(front, id);
    if o.id == id {
      assert RemoveObjects(list, id) == prev;
      DropLastKeep(prev, front, o);
    } else {
      var x := if o.children.ChildList? && |o.children.items| > 0
        then o.(children := ChildList(RemoveObjects(o.children.items, id))) else o;
      assert RemoveObjects(list, id) == prev + [x];
      if o.children.ChildList? && |o.children.items| > 0 {
        RemoveObjectsKeep(o.children.items, id);
      } else {
        assert Kids(x) == Kids(o);
        SubSeqRefl(ObjOwns(FlatObjects(Kids(o))));
      }
      KeepLastKeep(prev, front, x, o);
    }
  }

  /** Dropping a last object with its subtree keeps a subsequence a subsequence. */
  lemma DropLastKeep(prev: seq<SceneObject>, front: seq<SceneObject>, o: SceneObject)
    requires SubSeq(ObjOwns(FlatObjects(prev)), ObjOwns(FlatObjects(front)))
    ensures SubSeq(ObjOwns(FlatObjects(prev)), ObjOwns(FlatObjects(front + [o])))
  {
    ObjOwnsSnoc(front, o);
    SubSeqExtend(ObjOwns(FlatObjects(prev)), ObjOwns(FlatObjects(front)), ObjOwns([o] + FlatObjects(Kids(o))));
  }

  /** Keeping a last object, with its own fields and a subsequence of its subtree, keeps a subsequence a subsequence. */
  lemma KeepLastKeep(prev: seq<SceneObject>, front: seq<SceneObject>, x: SceneObject, o: SceneObject)
    requires SubSeq(ObjOwns(FlatObjects(prev)), ObjOwns(FlatObjects(front)))
    requires ObjOwn(x) == ObjOwn(o) && SubSeq(ObjOwns(FlatObjects(Kids(x))), ObjOwns(FlatObjects(Kids(o))))
    ensures SubSeq(ObjOwns(FlatObjects(prev + [x])), ObjOwns(FlatObjects(front + [o])))
  {
    HeadKeep(x, o);
    ObjOwnsSnoc(front, o);
    ObjOwnsSnoc(prev, x);
    SubSeqAppend(ObjOwns(FlatObjects(prev)), ObjOwns(FlatObjects(front)),
                 ObjOwns([x] + FlatObjects(Kids(x))), ObjOwns([o] + FlatObjects(Kids(o))));
  }

  /** The own fields of a forest with one more object: those of the forest, then of the object and its subtree. */
  lemma ObjOwnsSnoc(front: seq<SceneObject>, o: SceneObject)
    ensures ObjOwns(FlatObjects(front + [o])) == ObjOwns(FlatObjects(front)) + ObjOwns([o] + FlatObjects(Kids(o)))
  {
    FlatObjectsSnoc(front, o);
    assert FlatObjects(front) + [o] + FlatObjects(Kids(o)) == FlatObjects(front) + ([o] + FlatObjects(Kids(o)));
    ObjOwnsAppend(FlatObjects(front), [o] + FlatObjects(Kids(o)));
  }

  /** An object with the same own fields and a subsequence of the subtree keeps a subsequence of the pre-order. */
  lemma HeadKeep(x: SceneObject, o: SceneObject)
    requires ObjOwn(x) == ObjOwn(o) && SubSeq(ObjOwns(FlatObjects(Kids(x))), ObjOwns(FlatObjects(Kids(o))))
    ensures SubSeq(ObjOwns([x] + FlatObjects(Kids(x))), ObjOwns([o] + FlatObjects(Kids(o))))
  {
    ObjOwnsAppend([x], FlatObjects(Kids(x)));
    ObjOwnsAppend([o], FlatObjects(Kids(o)));
    assert ObjOwns([x]) == ObjOwns([o]);
    SubSeqRefl(ObjOwns([o]));
    SubSeqAppend(ObjOwns([x]), ObjOwns([o]), ObjOwns(FlatObjects(Kids(x))), ObjOwns(FlatObjects(Kids(o))));
  }

  lemma ObjectIdsSnoc(a: seq<SceneObject>, x: SceneObject)
    ensures ObjectIds(a + [x]) == ObjectIds(a) + [x.id]
  {
    var l, r := ObjectIds(a + [x]), ObjectIds(a) + [x.id];
    assert |l| == |r|;
    forall i | 0 <= i < |l| ensures l[i] == r[i] {
      assert (a + [x])[i] == if i < |a| then a[i] else x;
    }
  }

  lemma ObjectIdsAppend(a: seq<SceneObject>, b: seq<SceneObject>)
    ensures ObjectIds(a + b) == ObjectIds(a) + ObjectIds(b)
  {
  }

  /** The ids of a forest in pre-order: the first root's, its descendants', then the rest's. */
  lemma FlatIdsHead(list: seq<SceneObject>)
    requires |list| > 0
    ensures ObjectIds(FlatObjects(list))
         == [list[0].id] + (ObjectIds(FlatObjects(Kids(list[0]))) + ObjectIds(FlatObjects(list[1..])))
  {
    FlatObjectsHead(list);
    IdsOfParts(list[0], FlatObjects(Kids(list[0])), FlatObjects(list[1..]));
  }

  /** The ids of a root followed by two forests. */
  lemma IdsOfParts(x: SceneObject, kf: seq<SceneObject>, rf: seq<SceneObject>)
    ensures ObjectIds([x] + (kf + rf)) == [x.id] + (ObjectIds(kf) + ObjectIds(rf))
  {
    ObjectIdsAppend([x], kf + rf);
    ObjectIdsAppend(kf, rf);
    assert [x][1..] == [];
  }

  /** Two forests with the same first id, the same ids below the first root and in the rest have the same ids. */
  lemma SameFlatIds(u: seq<SceneObject>, list: seq<SceneObject>)
    requires |u| > 0 && |list| > 0 && u[0].id == list[0].id
    requires ObjectIds(FlatObjects(Kids(u[0]))) == ObjectIds(FlatObjects(Kids(list[0])))
    requires ObjectIds(FlatObjects(u[1..])) == ObjectIds(FlatObjects(list[1..]))
    ensures ObjectIds(FlatObjects(u)) == ObjectIds(FlatObjects(list))
  {
    FlatIdsHead(u);
    FlatIdsHead(list);
  }

  /** The id is somewhere in a non-empty forest iff at its first object, below it, or in the rest. */
  lemma InForestCons(os: seq<SceneObject>, id: string)
    requires |os| > 0
    ensures InForest(os, id) <==> os[0].id == id || InForest(Kids(os[0]), id) || InForest(os[1..], id)
  {
    var a: seq<SceneObject> := [os[0]];
    assert FlatObjects(os) == a + FlatObjects(Kids(os[0])) + FlatObjects(os[1..]);
    HasObjectIdAppend(a + FlatObjects(Kids(os[0])), FlatObjects(os[1..]), id);
    HasObjectIdAppend(a, FlatObjects(Kids(os[0])), id);
    assert HasObjectId(a, id) <==> os[0].id == id by {
      if HasObjectId(a, id) { var i :| 0 <= i < |a| && a[i].id == id; }
      if os[0].id == id { assert a[0].id == id; }
    }
  }

  // ---------------------------------------------------------------------
  // updateRecursive
  // ---------------------------------------------------------------------

  /**
   * One object under `updateRecursive`: a match takes the update (into its
   * graph node when a mesh id is given and the object has a structure), any
   * other object has its children processed.
   */
  function UpdateOne(o: SceneObject, id: string, p: Patch, meshId: Option<string>): (r: SceneObject)
    ensures r.id == o.id
    decreases o, 1
  {
    if o.id == id then
      if Given(meshId) && o.structure.Some? then
        o.(structure := Some(UpdateNodeInTree(o.structure.value, meshId.value, p)))
      else MergeObject(o, p)
    else if o.children.ChildList? then o.(children := ChildList(UpdateRecursive(o.children.items, id, p, meshId)))
    else o
  }

  /** `updateRecursive` */
  function UpdateRecursive(list: seq<SceneObject>, id: string, p: Patch, meshId: Option<string>): (r: seq<SceneObject>)
    ensures |r| == |list|
    decreases list, 0
  {
    if |list| == 0 then [] else [UpdateOne(list[0], id, p, meshId)] + UpdateRecursive(list[1..], id, p, meshId)
  }

  /**
   * After `updateRecursive`, the first object with the id is the one found
   * there before, with the update applied.
   */
  lemma {:induction false} UpdateRecursiveFound(list: seq<SceneObject>, id: string, p: Patch, meshId: Option<string>)
    ensures FindObjectRecursive(UpdateRecursive(list, id, p, meshId), id)
         == if FindObjectRecursive(list, id).Some? then Some(UpdateOne(FindObjectRecursive(list, id).value, id, p, meshId)) else None
    decreases list
  {
    if |list| > 0 {
      var u := UpdateRecursive(list, id, p, meshId);
      assert u[0] == UpdateOne(list[0], id, p, meshId) && u[1..] == UpdateRecursive(list[1..], id, p, meshId);
      if list[0].id != id {
        if list[0].children.ChildList? {
          UpdateRecursiveFound(list[0].children.items, id, p, meshId);
        }
        UpdateRecursiveFound(list[1..], id, p, meshId);
      }
    }
  }

  /** `updateRecursive` keeps every object, at every level, with its id and in its place. */
  lemma {:induction false} UpdateRecursiveIds(list: seq<SceneObject>, id: string, p: Patch, meshId: Option<string>)
    ensures ObjectIds(FlatObjects(UpdateRecursive(list, id, p, meshId))) == ObjectIds(FlatObjects(list))
    decreases list
  {
    if |list| > 0 {
      var u := UpdateRecursive(list, id, p, meshId);
      assert u[0] == UpdateOne(list[0], id, p, meshId) && u[1..] == UpdateRecursive(list[1..], id, p, meshId);
      if list[0].id != id && list[0].children.ChildList? {
        UpdateRecursiveIds(list[0].children.items, id, p, meshId);
      }
      UpdateRecursiveIds(list[1..], id, p, meshId);
      SameFlatIds(u, list);
    }
  }

  /** When no object has the id, `updateRecursive` changes nothing. */
  lemma {:induction false} UpdateRecursiveAbsent(list: seq<SceneObject>, id: string, p: Patch, meshId: Option<string>)
    requires !InForest(list, id)
    ensures UpdateRecursive(list, id, p, meshId) == list
    decreases list
  {
    if |list| > 0 {
      InForestCons(list, id);
      if list[0].children.ChildList? {
        UpdateRecursiveAbsent(list[0].children.items, id, p, meshId);
      }
      UpdateRecursiveAbsent(list[1..], id, p, meshId);
      assert [list[0]] + list[1..] == list;
    }
  }

  /**
   * With a mesh id, the update reaches the graph node: in the first object
   * with the id, the first node with the mesh id becomes the update spread
   * onto the node found there before.
   */
  lemma UpdateRecursiveMesh(list: seq<SceneObject>, id: string, p: Patch, meshId: Option<string>)
    requires Given(meshId)
    requires FindObjectRecursive(list, id).Some? && FindObjectRecursive(list, id).value.structure.Some?
    ensures var before := FindObjectRecursive(list, id).value.structure.value;
      var after := FindObjectRecursive(UpdateRecursive(list, id, p, meshId), id);
      after.Some? && after.value.structure.Some?
      && FindNodeInTree(after.value.structure.value, meshId.value)
         == if FindNodeInTree(before, meshId.value).Some?
            then Some(MergeNode(FindNodeInTree(before, meshId.value).value, p)) else None
  {
    UpdateRecursiveFound(list, id, p, meshId);
    FindObjectRecursiveFirst(list, id);
    UpdateNodeInTreeFound(FindObjectRecursive(list, id).value.structure.value, meshId.value, p);
  }

  /**
   * `updateRecursive` changes only objects with the id, and never the
   * children of a match: every other object, at every depth, keeps its own
   * fields.
   */
  lemma {:induction false} UpdateRecursiveFrame(list: seq<SceneObject>, id: string, p: Patch, meshId: Option<string>)
    ensures OnlyObjectsWithId(FlatObjects(UpdateRecursive(list, id, p, meshId)), FlatObjects(list), id)
    decreases list
  {
    if |list| > 0 {
      var u := UpdateRecursive(list, id, p, meshId);
      var o := list[0];
      assert u[0] == UpdateOne(o, id, p, meshId) && u[1..] == UpdateRecursive(list[1..], id, p, meshId);
      if o.id != id && o.children.ChildList? {
        UpdateRecursiveFrame(o.children.items, id, p, meshId);
      } else {
        assert Kids(u[0]) == Kids(o);
      }
      UpdateRecursiveFrame(list[1..], id, p, meshId);
      FlatObjectsHead(u);
      FlatObjectsHead(list);
      OnlyObjectsWithIdAppend(FlatObjects(Kids(u[0])), FlatObjects(Kids(o)), FlatObjects(u[1..]), FlatObjects(list[1..]), id);
      OnlyObjectsWithIdAppend([u[0]], [o], FlatObjects(Kids(u[0])) + FlatObjects(u[1..]),
                              FlatObjects(Kids(o)) + FlatObjects(list[1..]), id);
    }
  }

  // ---------------------------------------------------------------------
  // duplicateNodeInTree, duplicateNodeRecursive
  // ---------------------------------------------------------------------

  /** `children.find(c => c.id === id)`, as a position. */
  function FindChildIndex(cs: seq<Node>, id: string): (r: Option<nat>)
    ensures r.Some? ==> r.value < |cs| && cs[r.value].id == id && forall j :: 0 <= j < r.value ==> cs[j].id != id
    ensures r.None? ==> !HasId(cs, id)
  {
    if |cs| == 0 then None
    else if cs[0].id == id then Some(0)
    else
      var r := FindChildIndex(cs[1..], id);
      assert forall j :: 1 <= j < |cs| ==> cs[j] == cs[1..][j - 1];
      if r.Some? then Some(r.value + 1) else None
  }

  /** The copy `duplicateNodeInTree` appends: the clone of a child, its name suffixed. */
  function CopyOfNode(c: Node, k: nat, mint: nat -> string): (r: (Node, nat))
  {
    var cl := CloneNode(c, k, mint);
    (cl.0.(name := cl.0.name + CopySuffix), cl.1)
  }

  /**
   * `duplicateNodeInTree`: when a direct child has the id, a copy of the first
   * such child goes at the end of the child list; otherwise every child is
   * processed.
   */
  function DuplicateNodeInTree(n: Node, target: string, k: nat, mint: nat -> string): (r: (Node, nat))
    ensures r.0.id == n.id && r.0.name == n.name && r.0.props == n.props
    decreases n, 1
  {
    if n.children.ChildList? then
      var cs := n.children.items;
      var i := FindChildIndex(cs, target);
      if i.Some? then
        var c := CopyOfNode(cs[i.value], k, mint);
        (n.(children := ChildList(cs + [c.0])), c.1)
      else
        var ds := DuplicateNodes(cs, target, k, mint);
        (n.(children := ChildList(ds.0)), ds.1)
    else (n, k)
  }

  function DuplicateNodes(ns: seq<Node>, target: string, k: nat, mint: nat -> string): (r: (seq<Node>, nat))
    ensures |r.0| == |ns|
    decreases ns, 0
  {
    if |ns| == 0 then ([], k)
    else
      var first := DuplicateNodeInTree(ns[0], target, k, mint);
      var rest := DuplicateNodes(ns[1..], target, first.1, mint);
      ([first.0] + rest.0, rest.1)
  }

  /**
   * When a direct child has the id, the child list grows by exactly one node
   * at its end, and the existing children stay as they were. The new node
   * copies the first such child: fresh id `mint(k)`, the child's id as source
   * id, the child's original name, name suffixed, the same properties; below
   * it, node by node in pre-order, copies of the child's descendants with the
   * ids `mint(k + 1)`, `mint(k + 2)`, ...
   */
  lemma DuplicateNodeDirect(n: Node, target: string, k: nat, mint: nat -> string)
    requires n.children.ChildList? && HasId(n.children.items, target)
    ensures var r := DuplicateNodeInTree(n, target, k, mint).0;
      var cs := n.children.items;
      var i := FindChildIndex(cs, target).value;
      r.children.ChildList? && |r.children.items| == |cs| + 1 && r.children.items[..|cs|] == cs
      && var copy := r.children.items[|cs|];
         ClonedFrom(copy.(name := cs[i].name), cs[i], mint(k)) && copy.name == cs[i].name + CopySuffix
         && ClonedSeq(Flat(copy)[1..], Flat(cs[i])[1..], k + 1, mint)
  {
    var cs := n.children.items;
    var i := FindChildIndex(cs, target).value;
    CloneNodeShape(cs[i], k, mint);
    var cl := CloneNode(cs[i], k, mint).0;
    assert Flat(cl)[0] == cl && Flat(cs[i])[0] == cs[i];
    assert ClonedFrom(Flat(cl)[0], Flat(cs[i])[0], mint(k + 0));
    var copy := cl.(name := cl.name + CopySuffix);
    assert Flat(copy) == [copy] + Flat(cl)[1..];
    assert (cs + [copy])[..|cs|] == cs;
    forall j | 0 <= j < |Flat(cl)| - 1
      ensures ClonedFrom(Flat(cl)[1..][j], Flat(cs[i])[1..][j], mint(k + 1 + j))
    {
      assert ClonedFrom(Flat(cl)[j + 1], Flat(cs[i])[j + 1], mint(k + (j + 1)));
    }
  }

  /** When the id occurs nowhere below the root, nothing is duplicated and no id is drawn. */
  lemma {:induction false} DuplicateNodeAbsent(n: Node, target: string, k: nat, mint: nat -> string)
    requires !BelowRoot(n, target)
    ensures DuplicateNodeInTree(n, target, k, mint) == (n, k)
    decreases n, 1
  {
    if n.children.ChildList? {
      var cs := n.children.items;
      forall j | 0 <= j < |cs|
        ensures !BelowRoot(cs[j], target) && cs[j].id != target
      {
        ChildBelow(n, j, target);
        HasIdAppend([cs[j]], FlatList(NodeKids(cs[j])), target);
        assert [cs[j]][0].id == cs[j].id;
      }
      DuplicateNodesAbsent(cs, target, k, mint);
    }
  }

  lemma {:induction false} DuplicateNodesAbsent(ns: seq<Node>, target: string, k: nat, mint: nat -> string)
    requires forall j :: 0 <= j < |ns| ==> !BelowRoot(ns[j], target)
    ensures DuplicateNodes(ns, target, k, mint) == (ns, k)
    decreases ns, 0
  {
    if |ns| > 0 {
      DuplicateNodeAbsent(ns[0], target, k, mint);
      DuplicateNodesAbsent(ns[1..], target, k, mint);
      assert [ns[0]] + ns[1..] == ns;
    }
  }

  /** One object under `duplicateNodeRecursive`. */
  function DuplicateOne(o: SceneObject, id: string, meshId: string, k: nat, mint: nat -> string): (r: (SceneObject, nat))
    ensures r.0.id == o.id
    decreases o, 1
  {
    if o.id == id && o.structure.Some? then
      var d := DuplicateNodeInTree(o.structure.value, meshId, k, mint);
      (o.(structure := Some(d.0)), d.1)
    else if o.children.ChildList? then
      var ds := DuplicateNodeRecursive(o.children.items, id, meshId, k, mint);
      (o.(children := ChildList(ds.0)), ds.1)
    else (o, k)
  }

  /** `duplicateNodeRecursive`: duplicate a graph node inside the structure of the objects with the id. */
  function DuplicateNodeRecursive(list: seq<SceneObject>, id: string, meshId: string, k: nat, mint: nat -> string)
    : (r: (seq<SceneObject>, nat))
    ensures |r.0| == |list|
    decreases list, 0
  {
    if |list| == 0 then ([], k)
    else
      var first := DuplicateOne(list[0], id, meshId, k, mint);
      var rest := DuplicateNodeRecursive(list[1..], id, meshId, first.1, mint);
      ([first.0] + rest.0, rest.1)
  }

  /** `duplicateNodeRecursive` keeps every object of the forest, with its id and in its place. */
  lemma {:induction false} DuplicateNodeRecursiveIds(list: seq<SceneObject>, id: string, meshId: string, k: nat, mint: nat -> string)
    ensures ObjectIds(FlatObjects(DuplicateNodeRecursive(list, id, meshId, k, mint).0)) == ObjectIds(FlatObjects(list))
    decreases list
  {
    if |list| > 0 {
      var first := DuplicateOne(list[0], id, meshId, k, mint);
      var u := DuplicateNodeRecursive(list, id, meshId, k, mint).0;
      var rest := DuplicateNodeRecursive(list[1..], id, meshId, first.1, mint).0;
      assert u[0] == first.0 && u[1..] == rest;
      if !(list[0].id == id && list[0].structure.Some?) && list[0].children.ChildList? {
        DuplicateNodeRecursiveIds(list[0].children.items, id, meshId, k, mint);
      }
      DuplicateNodeRecursiveIds(list[1..], id, meshId, first.1, mint);
      SameFlatIds(u, list);
    }
  }

  /** When no object has the id, `duplicateNodeRecursive` changes nothing and draws no id. */
  lemma {:induction false} DuplicateNodeRecursiveAbsent(list: seq<SceneObject>, id: string, meshId: string, k: nat, mint: nat -> string)
    requires !InForest(list, id)
    ensures DuplicateNodeRecursive(list, id, meshId, k, mint) == (list, k)
    decreases list
  {
    if |list| > 0 {
      InForestCons(list, id);
      if list[0].children.ChildList? {
        DuplicateNodeRecursiveAbsent(list[0].children.items, id, meshId, k, mint);
      }
      DuplicateNodeRecursiveAbsent(list[1..], id, meshId, k, mint);
      assert [list[0]] + list[1..] == list;
    }
  }

  /**
   * `duplicateNodeRecursive` changes only objects with the id, and only their
   * structure: every other object, at every depth, keeps its own fields.
   */
  lemma {:induction false} DuplicateNodeRecursiveFrame(list: seq<SceneObject>, id: string, meshId: string, k: nat, mint: nat -> string)
    ensures OnlyObjectsWithId(FlatObjects(DuplicateNodeRecursive(list, id, meshId, k, mint).0), FlatObjects(list), id)
    decreases list
  {
    if |list| > 0 {
      var o := list[0];
      var first := DuplicateOne(o, id, meshId, k, mint);
      var u := DuplicateNodeRecursive(list, id, meshId, k, mint).0;
      assert u[0] == first.0 && u[1..] == DuplicateNodeRecursive(list[1..], id, meshId, first.1, mint).0;
      if !(o.id == id && o.structure.Some?) && o.children.ChildList? {
        DuplicateNodeRecursiveFrame(o.children.items, id, meshId, k, mint);
      } else {
        assert Kids(u[0]) == Kids(o);
      }
      DuplicateNodeRecursiveFrame(list[1..], id, meshId, first.1, mint);
      FlatObjectsHead(u);
      FlatObjectsHead(list);
      OnlyObjectsWithIdAppend(FlatObjects(Kids(u[0])), FlatObjects(Kids(o)), FlatObjects(u[1..]), FlatObjects(list[1..]), id);
      OnlyObjectsWithIdAppend([u[0]], [o], FlatObjects(Kids(u[0])) + FlatObjects(u[1..]),
                              FlatObjects(Kids(o)) + FlatObjects(list[1..]), id);
    }
  }

  /**
   * After `duplicateNodeRecursive`, the first object with the id is the one
   * found there before with the graph node duplicated in its structure; no
   * object before it draws an id, so the copy takes the first one, `mint(k)`.
   */
  lemma {:induction false} DuplicateNodeRecursiveFound(list: seq<SceneObject>, id: string, meshId: string, k: nat, mint: nat -> string)
    requires FindObjectRecursive(list, id).Some? && FindObjectRecursive(list, id).value.structure.Some?
    ensures var o := FindObjectRecursive(list, id).value;
      FindObjectRecursive(DuplicateNodeRecursive(list, id, meshId, k, mint).0, id)
      == Some(o.(structure := Some(DuplicateNodeInTree(o.structure.value, meshId, k, mint).0)))
    decreases list
  {
    var o := list[0];
    var first := DuplicateOne(o, id, meshId, k, mint);
    var u := DuplicateNodeRecursive(list, id, meshId, k, mint).0;
    assert u[0] == first.0 && u[1..] == DuplicateNodeRecursive(list[1..], id, meshId, first.1, mint).0;
    if o.id != id {
      if o.children.ChildList? && FindObjectRecursive(o.children.items, id).Some? {
        DuplicateNodeRecursiveFound(o.children.items, id, meshId, k, mint);
      } else {
        if o.children.ChildList? {
          FindObjectRecursiveFirst(o.children.items, id);
          DuplicateNodeRecursiveAbsent(o.children.items, id, meshId, k, mint);
        }
        assert first == (o, k);
        DuplicateNodeRecursiveFound(list[1..], id, meshId, k, mint);
      }
    }
  }

  // ---------------------------------------------------------------------
  // recordHistory
  // ---------------------------------------------------------------------

  /** An undo snapshot (`HistoryItem`). */
  datatype Snapshot = Snapshot(
    objects: seq<SceneObject>,
    selectedId: Option<string>,
    selectedMeshId: Option<string>,
    sceneConfig: SceneConfig)

  /**
   * The new `past` of `recordHistory`: the snapshot appended, then only the
   * last 50 entries kept (the redo stack is emptied by the caller).
   */
  function RecordHistory(past: seq<Snapshot>, snap: Snapshot): (r: seq<Snapshot>)
    ensures |r| == if |past| + 1 < HistoryLimit then |past| + 1 else HistoryLimit
    ensures r[|r| - 1] == snap
    ensures forall i :: 0 <= i < |r| - 1 ==> r[i] == past[|past| + 1 - |r| + i]
  {
    var all := past + [snap];
    if |all| > HistoryLimit then all[|all| - HistoryLimit..] else all
  }

  // ---------------------------------------------------------------------
  // revertObject
  // ---------------------------------------------------------------------

  /** The transform and opacity saved before timeline editing (`timelineOriginalState`). */
  datatype OriginalState = OriginalState(id: string, position: Json, rotation: Json, scale: Json, opacity: Json)

  /**
   * The properties of a reverted object: the saved transform, and a truthy
   * material made transparent with the saved opacity.
   */
  function RevertProps(ps: Dict<Json>, orig: OriginalState): Dict<Json>
  {
    var m := OrUndef(Get(ps, "material"));
    var material := if Truthy(m) then JObj(Set(Set(FieldsOf(m), "transparent", JBool(true)), "opacity", orig.opacity)) else m;
    Set(Set(Set(Set(ps, "position", orig.position), "rotation", orig.rotation), "scale", orig.scale), "material", material)
  }

  function RevertOne(o: SceneObject, orig: OriginalState): (r: SceneObject)
    ensures r.id == o.id
    decreases o, 1
  {
    if o.id == orig.id then o.(props := RevertProps(o.props, orig))
    else if o.children.ChildList? then o.(children := ChildList(RevertObject(o.children.items, orig)))
    else o
  }

  /** `revertObject` */
  function RevertObject(list: seq<SceneObject>, orig: OriginalState): (r: seq<SceneObject>)
    ensures |r| == |list|
    decreases list, 0
  {
    if |list| == 0 then [] else [RevertOne(list[0], orig)] + RevertObject(list[1..], orig)
  }

  /**
   * A reverted object reads back the saved position, rotation and scale; a
   * truthy material becomes transparent with the saved opacity, and every
   * other property is untouched.
   */
  lemma RevertPropsReads(ps: Dict<Json>, orig: OriginalState, key: string)
    ensures var r := RevertProps(ps, orig);
      Get(r, "position") == Some(orig.position) && Get(r, "rotation") == Some(orig.rotation)
      && Get(r, "scale") == Some(orig.scale)
      && (key != "position" && key != "rotation" && key != "scale" && key != "material" ==> Get(r, key) == Get(ps, key))
      && var m := OrUndef(Get(ps, "material"));
         (Truthy(m) ==> (Get(FieldsOf(Get(r, "material").value), "opacity") == Some(orig.opacity)
                         && Get(FieldsOf(Get(r, "material").value), "transparent") == Some(JBool(true))))
  {
    var m := OrUndef(Get(ps, "material"));
    var material := if Truthy(m) then JObj(Set(Set(FieldsOf(m), "transparent", JBool(true)), "opacity", orig.opacity)) else m;
    var p1 := Set(ps, "position", orig.position);
    var p2 := Set(p1, "rotation", orig.rotation);
    var p3 := Set(p2, "scale", orig.scale);
    GetSet(ps, "position", orig.position, key);
    GetSet(p1, "rotation", orig.rotation, key);
    GetSet(p2, "scale", orig.scale, key);
    GetSet(p3, "material", material, key);
    GetSet(ps, "position", orig.position, "position");
    GetSet(p1, "rotation", orig.rotation, "position");
    GetSet(p2, "scale", orig.scale, "position");
    GetSet(p3, "material", material, "position");
    GetSet(p1, "rotation", orig.rotation, "rotation");
    GetSet(p2, "scale", orig.scale, "rotation");
    GetSet(p3, "material", material, "rotation");
    GetSet(p2, "scale", orig.scale, "scale");
    GetSet(p3, "material", material, "scale");
    GetSet(p3, "material", material, "material");
    if Truthy(m) {
      var f1 := Set(FieldsOf(m), "transparent", JBool(true));
      GetSet(f1, "opacity", orig.opacity, "opacity");
      GetSet(f1, "opacity", orig.opacity, "transparent");
      GetSet(FieldsOf(m), "transparent", JBool(true), "transparent");
    }
  }

  /** After `revertObject`, the first object with the saved id is the reverted form of the one found before. */
  lemma {:induction false} RevertObjectFound(list: seq<SceneObject>, orig: OriginalState)
    ensures FindObjectRecursive(RevertObject(list, orig), orig.id)
         == if FindObjectRecursive(list, orig.id).Some?
            then Some(FindObjectRecursive(list, orig.id).value.(props := RevertProps(FindObjectRecursive(list, orig.id).value.props, orig)))
            else None
    decreases list
  {
    if |list| > 0 {
      var u := RevertObject(list, orig);
      assert u[0] == RevertOne(list[0], orig) && u[1..] == RevertObject(list[1..], orig);
      if list[0].id != orig.id {
        if list[0].children.ChildList? {
          RevertObjectFound(list[0].children.items, orig);
        }
        RevertObjectFound(list[1..], orig);
      }
    }
  }

  /** When no object has the saved id, `revertObject` changes nothing. */
  lemma {:induction false} RevertObjectAbsent(list: seq<SceneObject>, orig: OriginalState)
    requires !InForest(list, orig.id)
    ensures RevertObject(list, orig) == list
    decreases list
  {
    if |list| > 0 {
      InForestCons(list, orig.id);
      if list[0].children.ChildList? {
        RevertObjectAbsent(list[0].children.items, orig);
      }
      RevertObjectAbsent(list[1..], orig);
      assert [list[0]] + list[1..] == list;
    }
  }

  /**
   * `revertObject` changes only objects with the saved id, and never their
   * children: every other object, at every depth, keeps its own fields.
   */
  lemma {:induction false} RevertObjectFrame(list: seq<SceneObject>, orig: OriginalState)
    ensures OnlyObjectsWithId(FlatObjects(RevertObject(list, orig)), FlatObjects(list), orig.id)
    decreases list
  {
    if |list| > 0 {
      var u := RevertObject(list, orig);
      var o := list[0];
      assert u[0] == RevertOne(o, orig) && u[1..] == RevertObject(list[1..], orig);
      if o.id != orig.id && o.children.ChildList? {
        RevertObjectFrame(o.children.items, orig);
      } else {
        assert Kids(u[0]) == Kids(o);
      }
      RevertObjectFrame(list[1..], orig);
      FlatObjectsHead(u);
      FlatObjectsHead(list);
      OnlyObjectsWithIdAppend(FlatObjects(Kids(u[0])), FlatObjects(Kids(o)), FlatObjects(u[1..]), FlatObjects(list[1..]), orig.id);
      OnlyObjectsWithIdAppend([u[0]], [o], FlatObjects(Kids(u[0])) + FlatObjects(u[1..]),
                              FlatObjects(Kids(o)) + FlatObjects(list[1..]), orig.id);
    }
  }

  // ---------------------------------------------------------------------
  // refreshIds
  // ---------------------------------------------------------------------

  /**
   * `refreshIds`: every descendant of the object gets a fresh id, drawn in
   * pre-order from `mint(k)` on; the object itself keeps its id. The second
   * component is the next unused counter value.
   */
  function RefreshIds(o: SceneObject, k: nat, mint: nat -> string): (r: (SceneObject, nat))
    ensures r.0.id == o.id
    decreases o, 1
  {
    if o.children.ChildList? then
      var cs := RefreshChildren(o.children.items, k, mint);
      (o.(children := ChildList(cs.0)), cs.1)
    else (o, k)
  }

  /** The children of `refreshIds`: each child takes an id, then its own descendants take theirs. */
  function RefreshChildren(cs: seq<SceneObject>, k: nat, mint: nat -> string): (r: (seq<SceneObject>, nat))
    ensures |r.0| == |cs|
    decreases cs, 0
  {
    if |cs| == 0 then ([], k)
    else
      var first := RefreshIds(cs[0], k + 1, mint);
      var rest := RefreshChildren(cs[1..], first.1, mint);
      ([first.0.(id := mint(k))] + rest.0, rest.1)
  }

  /** `r` is `o` with the id `id` and its own child list of the same length. */
  predicate RefreshedFrom(r: SceneObject, o: SceneObject, id: string)
  {
    r == o.(id := id, children := r.children)
    && r.children.ChildList? == o.children.ChildList? && |Kids(r)| == |Kids(o)|
  }

  predicate RefreshedSeq(rs: seq<SceneObject>, os: seq<SceneObject>, k: nat, mint: nat -> string)
  {
    |rs| == |os| && forall i :: 0 <= i < |rs| ==> RefreshedFrom(rs[i], os[i], mint(k + i))
  }

  lemma RefreshedSeqAppend(r1: seq<SceneObject>, o1: seq<SceneObject>, r2: seq<SceneObject>, o2: seq<SceneObject>,
                            k: nat, k1: nat, mint: nat -> string)
    requires RefreshedSeq(r1, o1, k, mint) && k1 == k + |o1| && RefreshedSeq(r2, o2, k1, mint)
    ensures RefreshedSeq(r1 + r2, o1 + o2, k, mint)
  {
    forall i | 0 <= i < |r1 + r2|
      ensures RefreshedFrom((r1 + r2)[i], (o1 + o2)[i], mint(k + i))
    {
      if i >= |r1| {
        var j := i - |r1|;
        assert (r1 + r2)[i] == r2[j] && (o1 + o2)[i] == o2[j];
        assert RefreshedFrom(r2[j], o2[j], mint(k1 + j));
        assert k1 + j == k + i;
      } else {
        assert (r1 + r2)[i] == r1[i] && (o1 + o2)[i] == o1[i];
      }
    }
  }

  /**
   * `refreshIds` keeps the shape of the tree and everything but the ids: in
   * pre-order, the i-th descendant gets id `mint(k + i)` and keeps every other
   * field; exactly one id is drawn per descendant.
   */
  lemma RefreshIdsShape(o: SceneObject, k: nat, mint: nat -> string)
    ensures var r := RefreshIds(o, k, mint);
      r.0 == o.(children := r.0.children)
      && RefreshedSeq(FlatObjects(Kids(r.0)), FlatObjects(Kids(o)), k, mint)
      && r.1 == k + |FlatObjects(Kids(o))|
    decreases o, 0
  {
    if o.children.ChildList? {
      RefreshChildrenShape(o.children.items, k, mint);
    }
  }

  /** A one-object forest flattens to the object followed by its descendants. */
  lemma FlatOne(x: SceneObject)
    ensures FlatObjects([x]) == [x] + FlatObjects(Kids(x))
  {
    assert [x][1..] == [];
  }

  /** A single refreshed object is a refreshed one-object sequence. */
  lemma RefreshedOne(r: SceneObject, o: SceneObject, k: nat, mint: nat -> string)
    requires RefreshedFrom(r, o, mint(k))
    ensures RefreshedSeq([r], [o], k, mint)
  {
    assert k + 0 == k;
  }

  /** One child: it takes `mint(k)`, its descendants the ids after it. */
  lemma {:induction false} RefreshChildShape(c: SceneObject, k: nat, mint: nat -> string)
    ensures var first := RefreshIds(c, k + 1, mint);
      RefreshedSeq(FlatObjects([first.0.(id := mint(k))]), FlatObjects([c]), k, mint)
      && first.1 == k + |FlatObjects([c])|
    decreases c, 1
  {
    var first := RefreshIds(c, k + 1, mint);
    var head := first.0.(id := mint(k));
    RefreshIdsShape(c, k + 1, mint);
    FlatOne(head);
    FlatOne(c);
    assert Kids(head) == Kids(first.0);
    RefreshedOne(head, c, k, mint);
    RefreshedSeqAppend([head], [c], FlatObjects(Kids(head)), FlatObjects(Kids(c)), k, k + 1, mint);
  }

  /** Two refreshed forests side by side are the refreshed concatenation, the ids running on. */
  lemma RefreshedConcat(a: seq<SceneObject>, b: seq<SceneObject>, ra: seq<SceneObject>, rb: seq<SceneObject>,
                        k: nat, k1: nat, k2: nat, mint: nat -> string)
    requires RefreshedSeq(FlatObjects(a), FlatObjects(b), k, mint) && k1 == k + |FlatObjects(b)|
    requires RefreshedSeq(FlatObjects(ra), FlatObjects(rb), k1, mint) && k2 == k1 + |FlatObjects(rb)|
    ensures RefreshedSeq(FlatObjects(a + ra), FlatObjects(b + rb), k, mint)
    ensures k2 == k + |FlatObjects(b + rb)|
  {
    var fa, fb, fra, frb := FlatObjects(a), FlatObjects(b), FlatObjects(ra), FlatObjects(rb);
    FlatObjectsAppend(a, ra);
    FlatObjectsAppend(b, rb);
    RefreshedSeqAppend(fa, fb, fra, frb, k, k1, mint);
    assert RefreshedSeq(fa + fra, fb + frb, k, mint);
  }

  lemma {:induction false} RefreshChildrenShape(cs: seq<SceneObject>, k: nat, mint: nat -> string)
    ensures RefreshedSeq(FlatObjects(RefreshChildren(cs, k, mint).0), FlatObjects(cs), k, mint)
    ensures RefreshChildren(cs, k, mint).1 == k + |FlatObjects(cs)|
    decreases cs, 0
  {
    if |cs| > 0 {
      var first := RefreshIds(cs[0], k + 1, mint);
      var rest := RefreshChildren(cs[1..], first.1, mint);
      var a: seq<SceneObject> := [first.0.(id := mint(k))];
      RefreshChildShape(cs[0], k, mint);
      RefreshChildrenShape(cs[1..], first.1, mint);
      RefreshedConcat(a, [cs[0]], rest.0, cs[1..], k, first.1, rest.1, mint);
      assert RefreshChildren(cs, k, mint) == (a + rest.0, rest.1);
      assert cs == [cs[0]] + cs[1..];
    }
  }


  // ---------------------------------------------------------------------
  // setDeepValue
  // ---------------------------------------------------------------------

  /**
   * How a script step can fail: a property write on a primitive value throws
   * a TypeError in strict-mode JavaScript; writes into arrays are outside this
   * model.
   */
  datatype ScriptError = TypeError | Unmodelled

  /**
   * `setDeepValue` along the keys of a dotted path: each missing or falsy
   * intermediate property becomes `{}`, and the last key receives the value.
   */
  function SetDeep(j: Json, keys: seq<string>, v: Json): (r: Result<Json, ScriptError>)
    requires |keys| >= 1
    ensures r.Ok? ==> j.JObj? && r.value.JObj?
    ensures j.JObj? ==> r != Err(TypeError) || |keys| >= 2
    decreases |keys|
  {
    match j
    case JObj(fields) =>
      if |keys| == 1 then Ok(JObj(Set(fields, keys[0], v)))
      else
        var current := OrUndef(Get(fields, keys[0]));
        var next := if Truthy(current) then current else JObj([]);
        var inner := SetDeep(next, keys[1..], v);
        if inner.Err? then inner else Ok(JObj(Set(fields, keys[0], inner.value)))
    case JArr(_) => Err(Unmodelled)
    case _ => Err(TypeError)
  }

  /** Reading a dotted path: the value found by following the keys through objects. */
  function GetPath(j: Json, keys: seq<string>): Option<Json>
    decreases |keys|
  {
    if |keys| == 0 then Some(j)
    else if j.JObj? && HasKey(j.fields, keys[0]) then GetPath(Get(j.fields, keys[0]).value, keys[1..])
    else None
  }

  /** The object `{k0: {k1: ... {kn: v}}}`. */
  function Nest(keys: seq<string>, v: Json): (r: Json)
    requires |keys| >= 1
    ensures r.JObj? && |r.fields| == 1 && r.fields[0].0 == keys[0]
    decreases |keys|
  {
    if |keys| == 1 then JObj([(keys[0], v)]) else JObj([(keys[0], Nest(keys[1..], v))])
  }

  /** After a successful `setDeepValue`, following the path reads the value back. */
  lemma {:induction false} SetDeepGet(j: Json, keys: seq<string>, v: Json)
    requires |keys| >= 1 && SetDeep(j, keys, v).Ok?
    ensures GetPath(SetDeep(j, keys, v).value, keys) == Some(v)
    decreases |keys|
  {
    var fields := j.fields;
    if |keys| == 1 {
      GetSet(fields, keys[0], v, keys[0]);
      assert keys[1..] == [];
    } else {
      var current := OrUndef(Get(fields, keys[0]));
      var next := if Truthy(current) then current else JObj([]);
      SetDeepGet(next, keys[1..], v);
      GetSet(fields, keys[0], SetDeep(next, keys[1..], v).value, keys[0]);
    }
  }

  /** The other properties of the object are left as they were. */
  lemma SetDeepOthers(j: Json, keys: seq<string>, v: Json, other: string)
    requires |keys| >= 1 && SetDeep(j, keys, v).Ok? && other != keys[0]
    ensures Get(SetDeep(j, keys, v).value.fields, other) == Get(j.fields, other)
  {
    if |keys| == 1 {
      GetSet(j.fields, keys[0], v, other);
    } else {
      var current := OrUndef(Get(j.fields, keys[0]));
      var next := if Truthy(current) then current else JObj([]);
      GetSet(j.fields, keys[0], SetDeep(next, keys[1..], v).value, other);
    }
  }

  /** Starting from an empty object, every intermediate is created: the result is the nested object. */
  lemma {:induction false} SetDeepFresh(keys: seq<string>, v: Json)
    requires |keys| >= 1
    ensures SetDeep(JObj([]), keys, v) == Ok(Nest(keys, v))
    decreases |keys|
  {
    if |keys| > 1 {
      SetDeepFresh(keys[1..], v);
      EmptyDict(keys[0], Nest(keys[1..], v));
    } else {
      EmptyDict(keys[0], v);
    }
  }

  /**
   * A falsy intermediate is replaced by a fresh object: the first key then
   * holds exactly the nested object for the rest of the path, whatever was
   * there before.
   */
  lemma SetDeepFalsy(j: Json, keys: seq<string>, v: Json)
    requires j.JObj? && |keys| >= 2 && !Truthy(OrUndef(Get(j.fields, keys[0])))
    ensures SetDeep(j, keys, v).Ok?
    ensures Get(SetDeep(j, keys, v).value.fields, keys[0]) == Some(Nest(keys[1..], v))
  {
    SetDeepFresh(keys[1..], v);
    GetSet(j.fields, keys[0], Nest(keys[1..], v), keys[0]);
  }

  /** The fields of a scene object that the model keeps typed; a dotted path into them is not modelled. */
  predicate ObjectField(key: string)
  {
    key in {"id", "name", "children", "structure", "url", "dataBindings", "labelBinding", "htmlLabel",
            "events", "customAnimations", "activeAnimations", "activeCustomAnimationId", "sourceObjectId", "labelConfig"}
  }

  /** The typed fields of a graph node. */
  predicate NodeField(key: string)
  {
    key in {"id", "name", "children", "sourceNodeId", "originalName"}
  }

  /** `setDeepValue(obj, path, value)` on a scene object, through its plain properties. */
  function SetDeepOnObject(o: SceneObject, path: string, v: Json): (r: Result<SceneObject, ScriptError>)
    ensures r.Ok? ==> r.value == o.(props := r.value.props)
    ensures r.Ok? ==> GetPath(JObj(r.value.props), Split(path, '.')) == Some(v)
  {
    var keys := Split(path, '.');
    if ObjectField(keys[0]) then Err(Unmodelled)
    else
      var j := SetDeep(JObj(o.props), keys, v);
      if j.Err? then Err(j.error)
      else
        SetDeepGet(JObj(o.props), keys, v);
        Ok(o.(props := j.value.fields))
  }

  /** `setDeepValue(node, path, value)` on a graph node, through its plain properties. */
  function SetDeepOnNode(n: Node, path: string, v: Json): (r: Result<Node, ScriptError>)
    ensures r.Ok? ==> r.value == n.(props := r.value.props)
    ensures r.Ok? ==> GetPath(JObj(r.value.props), Split(path, '.')) == Some(v)
  {
    var keys := Split(path, '.');
    if NodeField(keys[0]) then Err(Unmodelled)
    else
      var j := SetDeep(JObj(n.props), keys, v);
      if j.Err? then Err(j.error)
      else
        SetDeepGet(JObj(n.props), keys, v);
        Ok(n.(props := j.value.fields))
  }

  // ---------------------------------------------------------------------
  // applyBindingsToObjects
  // ---------------------------------------------------------------------

  /**
   * A binding key `[meshId:]path.to.prop`: with a colon, the text before the
   * first colon names the target node and the text between the first and the
   * second colon is the path; without one, the whole key is the path.
   */
  function ParseBindingKey(key: string): (r: (Option<string>, string))
    ensures ':' !in key ==> r == (None, key)
    ensures ':' in key ==> r.0.Some? && ':' !in r.0.value && ':' !in r.1
  {
    if ':' in key then
      var parts := Split(key, ':');
      (Some(parts[0]), parts[1])
    else (None, key)
  }

  /** `mesh + ':' + path` parses back into the mesh and the path when neither holds a colon. */
  lemma ParseBindingKeyJoin(mesh: string, path: string)
    requires ':' !in mesh && ':' !in path
    ensures ParseBindingKey(mesh + ":" + path) == (Some(mesh), path)
  {
    var key := mesh + ":" + path;
    assert key[|mesh|] == ':';
    assert Join([mesh, path], ':') == key by {
      assert [mesh, path][1..] == [path];
    }
    SplitJoin([mesh, path], ':');
  }

  /** The value a binding delivers: the source value, passed through its expression if it has one. */
  function BindingValue(b: Binding, values: map<int, Dict<Json>>, eval: (string, Json) -> Option<Json>): (r: Option<Json>)
    ensures r.Some? ==> b.enabled && b.dataSourceId in values && !OrUndef(Get(values[b.dataSourceId], b.tagKey)).JUndef?
    ensures r.Some? && !Given(b.expression) ==> r.value == OrUndef(Get(values[b.dataSourceId], b.tagKey))
  {
    if !b.enabled || b.dataSourceId !in values then None
    else
      var raw := OrUndef(Get(values[b.dataSourceId], b.tagKey));
      if raw.JUndef? then None
      else if Given(b.expression) then eval(b.expression.value, raw)
      else Some(raw)
  }

  /**
   * One binding entry applied to the object being rebuilt: a mesh-targeted key
   * writes into a copy of the first node with that id, which is then merged
   * into the structure; any other key writes into the object itself.
   */
  function ApplyBinding(o: SceneObject, key: string, b: Binding, values: map<int, Dict<Json>>,
                        eval: (string, Json) -> Option<Json>): (r: Result<SceneObject, ScriptError>)
    ensures BindingValue(b, values, eval).None? ==> r == Ok(o)
    ensures r.Ok? ==> r.value.id == o.id && r.value.children == o.children
  {
    var value := BindingValue(b, values, eval);
    if value.None? then Ok(o)
    else
      var (target, path) := ParseBindingKey(key);
      if Given(target) && o.structure.Some? then
        var found := FindNodeInTree(o.structure.value, target.value);
        if found.None? then Ok(o)
        else
          var updated := SetDeepOnNode(found.value, path, value.value);
          if updated.Err? then Err(updated.error)
          else
            var patch := NoChange().(name := Some(updated.value.name), props := updated.value.props);
            Ok(o.(structure := Some(UpdateNodeInTree(o.structure.value, target.value, patch))))
      else SetDeepOnObject(o, path, value.value)
  }

  /** The entries of `dataBindings`, in order, each applied to the result of the previous one. */
  function ApplyEntries(o: SceneObject, bs: Dict<Binding>, values: map<int, Dict<Json>>,
                        eval: (string, Json) -> Option<Json>): (r: Result<SceneObject, ScriptError>)
    ensures r.Ok? ==> r.value.id == o.id && r.value.children == o.children
    decreases |bs|
  {
    if |bs| == 0 then Ok(o)
    else
      var first := ApplyBinding(o, bs[0].0, bs[0].1, values, eval);
      if first.Err? then first else ApplyEntries(first.value, bs[1..], values, eval)
  }

  function ApplyToObject(o: SceneObject, values: map<int, Dict<Json>>, eval: (string, Json) -> Option<Json>)
    : (r: Result<SceneObject, ScriptError>)
    ensures r.Ok? ==> r.value.id == o.id && r.value.children.ChildList? == o.children.ChildList?
    ensures r.Ok? ==> |Kids(r.value)| == |Kids(o)|
    decreases o, 1
  {
    var bound := if o.dataBindings.Some? then ApplyEntries(o, o.dataBindings.value, values, eval) else Ok(o);
    if bound.Err? then bound
    else if o.children.ChildList? then
      var kids := ApplyBindingsToObjects(o.children.items, values, eval);
      if kids.Err? then Err(kids.error) else Ok(bound.value.(children := ChildList(kids.value)))
    else bound
  }

  /**
   * `applyBindingsToObjects`: every object, at every level, with its data
   * bindings applied; the first script error aborts the whole pass.
   */
  function ApplyBindingsToObjects(list: seq<SceneObject>, values: map<int, Dict<Json>>, eval: (string, Json) -> Option<Json>)
    : (r: Result<seq<SceneObject>, ScriptError>)
    ensures r.Ok? ==> |r.value| == |list|
    decreases list, 0
  {
    if |list| == 0 then Ok([])
    else
      var first := ApplyToObject(list[0], values, eval);
      if first.Err? then Err(first.error)
      else
        var rest := ApplyBindingsToObjects(list[1..], values, eval);
        if rest.Err? then rest else Ok([first.value] + rest.value)
  }

  /** Applying bindings keeps every object of the forest, with its id and in its place. */
  lemma {:induction false} ApplyBindingsIds(list: seq<SceneObject>, values: map<int, Dict<Json>>, eval: (string, Json) -> Option<Json>)
    requires ApplyBindingsToObjects(list, values, eval).Ok?
    ensures ObjectIds(FlatObjects(ApplyBindingsToObjects(list, values, eval).value)) == ObjectIds(FlatObjects(list))
    decreases list
  {
    if |list| > 0 {
      var u := ApplyBindingsToObjects(list, values, eval).value;
      var first := ApplyToObject(list[0], values, eval);
      var rest := ApplyBindingsToObjects(list[1..], values, eval);
      assert u[0] == first.value && u[1..] == rest.value;
      if list[0].children.ChildList? {
        var kids := ApplyBindingsToObjects(list[0].children.items, values, eval);
        assert Kids(u[0]) == kids.value;
        ApplyBindingsIds(list[0].children.items, values, eval);
      }
      ApplyBindingsIds(list[1..], values, eval);
      SameFlatIds(u, list);
    }
  }

  /** An object none of whose bindings is enabled. */
  predicate Inert(o: SceneObject)
  {
    o.dataBindings.None? || forall i :: 0 <= i < |o.dataBindings.value| ==> !o.dataBindings.value[i].1.enabled
  }

  lemma {:induction false} ApplyEntriesInert(o: SceneObject, bs: Dict<Binding>, values: map<int, Dict<Json>>, eval: (string, Json) -> Option<Json>)
    requires forall i :: 0 <= i < |bs| ==> !bs[i].1.enabled
    ensures ApplyEntries(o, bs, values, eval) == Ok(o)
    decreases |bs|
  {
    if |bs| > 0 {
      ApplyEntriesInert(o, bs[1..], values, eval);
    }
  }

  /** A forest with no enabled binding anywhere: neither has its first root, that root's descendants, or the later trees. */
  lemma InertParts(list: seq<SceneObject>)
    requires |list| > 0 && forall i :: 0 <= i < |FlatObjects(list)| ==> Inert(FlatObjects(list)[i])
    ensures Inert(list[0])
    ensures forall i :: 0 <= i < |FlatObjects(Kids(list[0]))| ==> Inert(FlatObjects(Kids(list[0]))[i])
    ensures forall i :: 0 <= i < |FlatObjects(list[1..])| ==> Inert(FlatObjects(list[1..])[i])
  {
    FlatObjectsHead(list);
    InertSplit(list[0], FlatObjects(Kids(list[0])), FlatObjects(list[1..]));
  }

  /** Every object of a root followed by two forests is inert: so is each part. */
  lemma InertSplit(x: SceneObject, kf: seq<SceneObject>, rf: seq<SceneObject>)
    requires forall i :: 0 <= i < |[x] + (kf + rf)| ==> Inert(([x] + (kf + rf))[i])
    ensures Inert(x)
    ensures forall i :: 0 <= i < |kf| ==> Inert(kf[i])
    ensures forall i :: 0 <= i < |rf| ==> Inert(rf[i])
  {
    var f := [x] + (kf + rf);
    assert Inert(f[0]);
    forall i | 0 <= i < |kf| ensures Inert(kf[i]) { assert kf[i] == f[1 + i]; }
    forall i | 0 <= i < |rf| ensures Inert(rf[i]) { assert rf[i] == f[1 + |kf| + i]; }
  }

  /** When no object anywhere in the forest has an enabled binding, nothing changes. */
  lemma {:induction false} ApplyBindingsInert(list: seq<SceneObject>, values: map<int, Dict<Json>>, eval: (string, Json) -> Option<Json>)
    requires forall i :: 0 <= i < |FlatObjects(list)| ==> Inert(FlatObjects(list)[i])
    ensures ApplyBindingsToObjects(list, values, eval) == Ok(list)
    decreases list
  {
    if |list| > 0 {
      var o := list[0];
      InertParts(list);
      assert ApplyToObject(o, values, eval) == Ok(o) by {
        if o.dataBindings.Some? {
          ApplyEntriesInert(o, o.dataBindings.value, values, eval);
        }
        if o.children.ChildList? {
          assert Kids(o) == o.children.items;
          ApplyBindingsInert(o.children.items, values, eval);
        }
      }
      ApplyBindingsInert(list[1..], values, eval);
      assert [o] + list[1..] == list;
    }
  }

  /**
   * An enabled binding on a plain property (no mesh target) writes the source
   * value, or its evaluated expression, at its path: reading the path back
   * gives that value.
   */
  lemma ApplyBindingWrites(o: SceneObject, key: string, b: Binding, values: map<int, Dict<Json>>,
                           eval: (string, Json) -> Option<Json>)
    requires ':' !in key
    requires BindingValue(b, values, eval).Some?
    requires ApplyBinding(o, key, b, values, eval).Ok?
    ensures GetPath(JObj(ApplyBinding(o, key, b, values, eval).value.props), Split(key, '.'))
         == BindingValue(b, values, eval)
  {
  }

  /**
   * An enabled binding keyed `mesh:path` on an object with a structure that
   * holds a node `mesh`: the first node with that id reads the value back at
   * the path, keeps its name and its other properties, and only nodes with
   * that id change; the object keeps everything but its structure.
   */
  lemma ApplyBindingWritesNode(o: SceneObject, mesh: string, path: string, b: Binding,
                               values: map<int, Dict<Json>>, eval: (string, Json) -> Option<Json>)
    requires mesh != "" && ':' !in mesh && ':' !in path
    requires BindingValue(b, values, eval).Some?
    requires o.structure.Some? && FindNodeInTree(o.structure.value, mesh).Some?
    requires ApplyBinding(o, mesh + ":" + path, b, values, eval).Ok?
    ensures var r := ApplyBinding(o, mesh + ":" + path, b, values, eval).value;
      var before := FindNodeInTree(o.structure.value, mesh).value;
      r == o.(structure := r.structure) && r.structure.Some?
      && FindNodeInTree(r.structure.value, mesh).Some?
      && GetPath(JObj(FindNodeInTree(r.structure.value, mesh).value.props), Split(path, '.'))
         == BindingValue(b, values, eval)
      && FindNodeInTree(r.structure.value, mesh).value.name == before.name
      && (forall k :: k != Split(path, '.')[0] ==>
            Get(FindNodeInTree(r.structure.value, mesh).value.props, k) == Get(before.props, k))
      && OnlyNodesWithId(Flat(r.structure.value), Flat(o.structure.value), mesh)
  {
    var key := mesh + ":" + path;
    ParseBindingKeyJoin(mesh, path);
    var v := BindingValue(b, values, eval).value;
    var s := o.structure.value;
    var before := FindNodeInTree(s, mesh).value;
    var updated := SetDeepOnNode(before, path, v);
    var keys := Split(path, '.');
    var patch := NoChange().(name := Some(updated.value.name), props := updated.value.props);
    var r := ApplyBinding(o, key, b, values, eval).value;
    assert r == o.(structure := Some(UpdateNodeInTree(s, mesh, patch)));
    UpdateNodeInTreeFound(s, mesh, patch);
    UpdateNodeInTreeFrame(s, mesh, patch);
    var after := MergeNode(before, patch);
    assert FindNodeInTree(r.structure.value, mesh) == Some(after);
    var j := SetDeep(JObj(before.props), keys, v);
    assert updated.value.props == j.value.fields;
    assert HasKey(patch.props, keys[0]) by {
      SetDeepGet(JObj(before.props), keys, v);
    }
    GetPathFirst(after.props, patch.props, keys);
    forall k | k != keys[0]
      ensures Get(after.props, k) == Get(before.props, k)
    {
      SetDeepOthers(JObj(before.props), keys, v, k);
    }
  }

  /** Two dictionaries that agree on the first key of a path read the same along it. */
  lemma GetPathFirst(a: Dict<Json>, b: Dict<Json>, keys: seq<string>)
    requires |keys| >= 1 && Get(a, keys[0]) == Get(b, keys[0])
    ensures GetPath(JObj(a), keys) == GetPath(JObj(b), keys)
  {
  }
}
