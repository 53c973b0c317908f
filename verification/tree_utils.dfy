/**
 * The scene-graph and scene-object searches of the editor's general
 * utilities: lock inheritance along the path to a node, and the collection
 * of the animations a preview plays.
 *
 * `findNodeInTree` and `findObjectRecursive` of this file are the same
 * searches as the store's and are modelled once, as
 * `StoreUtils.FindNodeInTree` and `StoreUtils.FindObjectRecursive`.
 */
module TreeUtils {
  import opened Wrappers
  import opened Json
  import opened Scene
  import opened StoreUtils

  // ---------------------------------------------------------------------
  // checkPathLocked
  // ---------------------------------------------------------------------

  /** The answer of `checkPathLocked`. */
  datatype LockCheck = LockCheck(found: bool, pathLocked: bool)

  /** The node's `locked` flag, read with JavaScript truthiness. */
  predicate Locked(n: Node)
  {
    Truthy(OrUndef(Get(n.props, "locked")))
  }

  /**
   * `checkPathLocked`: nothing is found below an undefined node; otherwise
   * the search of the node and its subtree.
   */
  function CheckPathLocked(node: Option<Node>, target: string): (r: LockCheck)
    ensures node.None? ==> r == LockCheck(false, false)
  {
    if node.None? then LockCheck(false, false) else CheckNode(node.value, target)
  }

  /**
   * The node itself answers with its own lock; otherwise the first child
   * whose subtree holds the target answers, and the node's lock is added.
   */
  function CheckNode(n: Node, target: string): (r: LockCheck)
    ensures !r.found ==> !r.pathLocked
    ensures r.found && Locked(n) ==> r.pathLocked
    decreases n, 1
  {
    if n.id == target then LockCheck(true, Locked(n))
    else if n.children.ChildList? then
      var c := CheckChildren(n.children.items, target);
      if c.found then LockCheck(true, Locked(n) || c.pathLocked) else LockCheck(false, false)
    else LockCheck(false, false)
  }

  /** The `for ... of` over the children, returning at the first child that finds the target. */
  function CheckChildren(cs: seq<Node>, target: string): (r: LockCheck)
    ensures !r.found ==> !r.pathLocked
    decreases cs, 0
  {
    if |cs| == 0 then LockCheck(false, false)
    else
      var r := CheckNode(cs[0], target);
      if r.found then r else CheckChildren(cs[1..], target)
  }

  /** `p` walks from `n` down parent-to-child links to a node with the target id. */
  predicate IsPath(p: seq<Node>, n: Node, target: string)
  {
    |p| >= 1 && p[0] == n && p[|p| - 1].id == target
    && forall i :: 0 < i < |p| ==> p[i] in NodeKids(p[i - 1])
  }

  /** Some node of the path is locked. */
  predicate AnyLocked(p: seq<Node>)
  {
    exists i :: 0 <= i < |p| && Locked(p[i])
  }

  /** The target is found exactly when some node of the tree has its id. */
  lemma {:induction false} CheckNodeFound(n: Node, target: string)
    ensures CheckNode(n, target).found <==> HasId(Flat(n), target)
    decreases n, 1
  {
    HasIdAppend([n], FlatList(NodeKids(n)), target);
    assert [n][0] == n;
    if n.children.ChildList? {
      CheckChildrenFound(n.children.items, target);
    }
  }

  lemma {:induction false} CheckChildrenFound(cs: seq<Node>, target: string)
    ensures CheckChildren(cs, target).found <==> HasId(FlatList(cs), target)
    decreases cs, 0
  {
    if |cs| > 0 {
      CheckNodeFound(cs[0], target);
      CheckChildrenFound(cs[1..], target);
      HasIdAppend(Flat(cs[0]), FlatList(cs[1..]), target);
    }
  }

  /**
   * When the target is found, the answer's lock is that of a path from the
   * node down to the target: locked exactly when some node on it, the target
   * included, is locked.
   */
  lemma {:induction false} CheckNodePath(n: Node, target: string)
    requires CheckNode(n, target).found
    ensures exists p :: IsPath(p, n, target) && (CheckNode(n, target).pathLocked <==> AnyLocked(p))
    decreases n, 1
  {
    if n.id == target {
      PathOne(n, target);
    } else {
      var cs := n.children.items;
      CheckChildrenPath(cs, target);
      var j, q :| 0 <= j < |cs| && IsPath(q, cs[j], target)
                  && (CheckChildren(cs, target).pathLocked <==> AnyLocked(q));
      PathCons(n, j, q, target);
    }
  }

  /** The target itself is a one-node path, locked exactly when the target is. */
  lemma PathOne(n: Node, target: string)
    requires n.id == target
    ensures IsPath([n], n, target) && (AnyLocked([n]) <==> Locked(n))
  {
    if AnyLocked([n]) {
      var i :| 0 <= i < 1 && Locked([n][i]);
      assert i == 0;
    }
    if Locked(n) {
      assert Locked([n][0]);
    }
  }

  /** A node before a path from one of its children is a path, locked when the node or the rest is. */
  lemma PathCons(n: Node, j: nat, q: seq<Node>, target: string)
    requires n.children.ChildList? && j < |n.children.items| && IsPath(q, n.children.items[j], target)
    ensures IsPath([n] + q, n, target) && (AnyLocked([n] + q) <==> Locked(n) || AnyLocked(q))
  {
    var p := [n] + q;
    assert IsPath(p, n, target) by {
      assert p[1] == n.children.items[j];
      forall i | 1 < i < |p|
        ensures p[i] in NodeKids(p[i - 1])
      {
        assert p[i] == q[i - 1] && p[i - 1] == q[i - 2];
      }
    }
    assert AnyLocked(p) ==> Locked(n) || AnyLocked(q) by {
      if AnyLocked(p) {
        var i :| 0 <= i < |p| && Locked(p[i]);
        if i > 0 {
          assert Locked(q[i - 1]);
        }
      }
    }
    assert AnyLocked(q) ==> AnyLocked(p) by {
      if AnyLocked(q) {
        var i :| 0 <= i < |q| && Locked(q[i]);
        assert p[i + 1] == q[i];
      }
    }
    assert Locked(n) ==> AnyLocked(p) by {
      if Locked(n) {
        assert Locked(p[0]);
      }
    }
  }

  lemma {:induction false} CheckChildrenPath(cs: seq<Node>, target: string)
    requires CheckChildren(cs, target).found
    ensures exists j, p :: 0 <= j < |cs| && IsPath(p, cs[j], target)
                           && (CheckChildren(cs, target).pathLocked <==> AnyLocked(p))
    decreases cs, 0
  {
    if CheckNode(cs[0], target).found {
      CheckNodePath(cs[0], target);
      var p :| IsPath(p, cs[0], target) && (CheckNode(cs[0], target).pathLocked <==> AnyLocked(p));
      assert 0 <= 0 < |cs| && IsPath(p, cs[0], target);
    } else {
      CheckChildrenPath(cs[1..], target);
      var j, p :| 0 <= j < |cs[1..]| && IsPath(p, cs[1..][j], target)
                  && (CheckChildren(cs[1..], target).pathLocked <==> AnyLocked(p));
      assert cs[1..][j] == cs[j + 1];
      assert 0 <= j + 1 < |cs| && IsPath(p, cs[j + 1], target);
    }
  }

  /** In a tree where no node is locked, no path is reported locked. */
  lemma {:induction false} CheckNodeUnlocked(n: Node, target: string)
    requires forall m :: m in Flat(n) ==> !Locked(m)
    ensures !CheckNode(n, target).pathLocked
    decreases n, 1
  {
    assert n in Flat(n);
    if n.id != target && n.children.ChildList? {
      var cs := n.children.items;
      assert Flat(n) == [n] + FlatList(cs);
      CheckChildrenUnlocked(cs, target);
    }
  }

  lemma {:induction false} CheckChildrenUnlocked(cs: seq<Node>, target: string)
    requires forall m :: m in FlatList(cs) ==> !Locked(m)
    ensures !CheckChildren(cs, target).pathLocked
    decreases cs, 0
  {
    if |cs| > 0 {
      assert FlatList(cs) == Flat(cs[0]) + FlatList(cs[1..]);
      CheckNodeUnlocked(cs[0], target);
      CheckChildrenUnlocked(cs[1..], target);
    }
  }

  // ---------------------------------------------------------------------
  // findNodeInTree / findObjectRecursive, as seen by their callers
  // ---------------------------------------------------------------------

  /** `findNodeInTree` gives `null` exactly when no node of the tree has the id, and otherwise a node with it. */
  lemma FindNodeInTreeNull(n: Node, id: string)
    ensures FindNodeInTree(n, id).None? <==> !HasId(Flat(n), id)
    ensures FindNodeInTree(n, id).Some? ==> FindNodeInTree(n, id).value.id == id
  {
    FindNodeInTreeFirst(n, id);
  }

  /** `findObjectRecursive` gives `null` exactly when no object of the forest has the id. */
  lemma FindObjectRecursiveNull(os: seq<SceneObject>, id: string)
    ensures FindObjectRecursive(os, id).None? <==> !InForest(os, id)
    ensures FindObjectRecursive(os, id).Some? ==> FindObjectRecursive(os, id).value.id == id
  {
    FindObjectRecursiveFirst(os, id);
  }

  // ---------------------------------------------------------------------
  // findActiveAnimations
  // ---------------------------------------------------------------------

  /** An entry of the result: the object and one of its animations. */
  datatype Active = Active(obj: SceneObject, anim: Animation)

  /** `o.customAnimations || []` */
  function AnimsOf(o: SceneObject): seq<Animation>
  {
    if o.customAnimations.Some? then o.customAnimations.value else []
  }

  /** A preview plays the animation: it is the object's active one, or it plays automatically. */
  predicate Playing(o: SceneObject, a: Animation)
  {
    (o.activeCustomAnimationId.Some? && o.activeCustomAnimationId.value == a.id) || a.autoPlay == Some(true)
  }

  /** The playing animations among `anims` of `o`, in order. */
  function ActiveIn(o: SceneObject, anims: seq<Animation>): (r: seq<Active>)
    ensures forall x :: x in r <==> x.obj == o && x.anim in anims && Playing(o, x.anim)
  {
    if |anims| == 0 then []
    else ActiveIn(o, anims[..|anims| - 1]) + (if Playing(o, anims[|anims| - 1]) then [Active(o, anims[|anims| - 1])] else [])
  }

  /** The playing animations of each object of the list, object by object. */
  function ActiveList(os: seq<SceneObject>): seq<Active>
  {
    if |os| == 0 then [] else ActiveList(os[..|os| - 1]) + ActiveIn(os[|os| - 1], AnimsOf(os[|os| - 1]))
  }

  /** An entry is in the list exactly when its object is listed and its animation is one of that object's playing ones. */
  lemma {:induction false} ActiveListMembers(os: seq<SceneObject>, x: Active)
    ensures x in ActiveList(os) <==> x.obj in os && x.anim in AnimsOf(x.obj) && Playing(x.obj, x.anim)
  {
    if |os| > 0 {
      var init, last := os[..|os| - 1], os[|os| - 1];
      ActiveListMembers(init, x);
      assert os == init + [last];
      assert x.obj in os <==> x.obj in init || x.obj == last;
    }
  }

  lemma {:induction false} ActiveListAppend(a: seq<SceneObject>, b: seq<SceneObject>)
    ensures ActiveList(a + b) == ActiveList(a) + ActiveList(b)
  {
    if |b| == 0 {
      assert a + b == a;
    } else {
      var init, last := b[..|b| - 1], b[|b| - 1];
      ActiveListAppend(a, init);
      ActiveListSnoc(a, b);
      var x, y, z := ActiveList(a), ActiveList(init), ActiveIn(last, AnimsOf(last));
      assert (x + y) + z == x + (y + z);
    }
  }

  /** The last object of a non-empty `a + b` is the last of `b`. */
  lemma ActiveListSnoc(a: seq<SceneObject>, b: seq<SceneObject>)
    requires |b| > 0
    ensures ActiveList(a + b) == ActiveList(a + b[..|b| - 1]) + ActiveIn(b[|b| - 1], AnimsOf(b[|b| - 1]))
    ensures ActiveList(b) == ActiveList(b[..|b| - 1]) + ActiveIn(b[|b| - 1], AnimsOf(b[|b| - 1]))
  {
    assert (a + b)[..|a + b| - 1] == a + b[..|b| - 1];
    assert (a + b)[|a + b| - 1] == b[|b| - 1];
  }

  /** The inner loop of `findActiveAnimations`: the playing animations of one object. */
  method ActiveOfObject(o: SceneObject) returns (list: seq<Active>)
    ensures list == ActiveIn(o, AnimsOf(o))
  {
    var anims := AnimsOf(o);
    list := [];
    var j := 0;
    while j < |anims|
      invariant 0 <= j <= |anims|
      invariant list == ActiveIn(o, anims[..j])
    {
      if Playing(o, anims[j]) {
        list := list + [Active(o, anims[j])];
      }
      assert anims[..j + 1][..j] == anims[..j];
      j := j + 1;
    }
    assert anims[..j] == anims;
  }

  /**
   * `findActiveAnimations` as written: the pairs of each listed object; the
   * call on an object's children runs, but its result is dropped.
   */
  method FindActiveAnimations(arr: seq<SceneObject>) returns (list: seq<Active>)
    ensures list == ActiveList(arr)
    decreases arr
  {
    list := [];
    var i := 0;
    while i < |arr|
      invariant 0 <= i <= |arr|
      invariant list == ActiveList(arr[..i])
    {
      var o := arr[i];
      var own := ActiveOfObject(o);
      list := list + own;
      if o.children.ChildList? {
        var _ := FindActiveAnimations(o.children.items);
      }
      assert arr[..i + 1][..i] == arr[..i];
      i := i + 1;
    }
    assert arr[..i] == arr;
  }

  /** One more object in the scanned list adds its own pairs, then its subtree's. */
  lemma DeepStep(arr: seq<SceneObject>, i: nat, list: seq<Active>, own: seq<Active>, nested: seq<Active>)
    requires i < |arr| && list == ActiveList(FlatObjects(arr[..i]))
    requires own == ActiveIn(arr[i], AnimsOf(arr[i]))
    requires nested == ActiveList(FlatObjects(Kids(arr[i])))
    ensures ActiveList(FlatObjects(arr[..i + 1])) == list + own + nested
  {
    var prefix, o := arr[..i], arr[i];
    assert arr[..i + 1] == prefix + [o];
    FlatObjectsSnoc(prefix, o);
    ActiveListAppend(FlatObjects(prefix) + [o], FlatObjects(Kids(o)));
    ActiveListAppend(FlatObjects(prefix), [o]);
    assert [o][..0] == [];
  }

  /** The scan the function's documentation describes: every object of the forest, at any depth, in pre-order. */
  method FindActiveAnimationsDeep(arr: seq<SceneObject>) returns (list: seq<Active>)
    ensures list == ActiveList(FlatObjects(arr))
    decreases arr
  {
    list := [];
    var i := 0;
    while i < |arr|
      invariant 0 <= i <= |arr|
      invariant list == ActiveList(FlatObjects(arr[..i]))
    {
      var o := arr[i];
      var own := ActiveOfObject(o);
      var nested := [];
      if o.children.ChildList? {
        nested := FindActiveAnimationsDeep(o.children.items);
      } else {
        assert FlatObjects(Kids(o)) == [];
      }
      DeepStep(arr, i, list, own, nested);
      list := list + own + nested;
      i := i + 1;
    }
    assert arr[..i] == arr;
  }

  /** A forest whose only playing animation belongs to a nested object. */
  function NestedAutoPlay(): seq<SceneObject>
  {
    var anim := Animation("a", "anim", 3.0, "loop", Some(true), None, []);
    var child := SceneObject("child", "child", NoChildren, None, None, None, None, None, None,
                             Some([anim]), None, None, None, None, []);
    var parent := SceneObject("parent", "group", ChildList([child]), None, None, None, None, None, None,
                              None, None, None, None, None, []);
    [parent]
  }

  /**
   * The as-written scan misses the nested object's auto-playing animation,
   * which the deep scan reports.
   */
  lemma NestedAnimationMissed()
    ensures ActiveList(NestedAutoPlay()) == []
    ensures |ActiveList(FlatObjects(NestedAutoPlay()))| == 1
  {
    var os := NestedAutoPlay();
    var parent := os[0];
    var child := Kids(parent)[0];
    assert AnimsOf(parent) == [];
    assert ActiveList([parent]) == [] by {
      assert [parent][..0] == [];
    }
    assert |ActiveIn(child, AnimsOf(child))| == 1 by {
      assert AnimsOf(child)[..0] == [];
    }
    assert FlatObjects(os) == [parent, child] by {
      assert FlatObjects(Kids(child)) == [];
      assert FlatObjects(Kids(parent)) == [child];
    }
    assert [parent, child][..1] == [parent];
  }
}
