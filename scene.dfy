/**
 * The scene hierarchy the editor tools work on.
 *
 * A GameObject is a value: its name, tag, active flag, the one Renderer it
 * may carry, the mesh of its MeshFilter, the list that
 * `GetComponents<Component>()` returns, and its ordered children.
 * Materials, meshes and bounds are opaque identities. A node inside a
 * tree is addressed by the child indices leading to it from the root
 * (`Pos`); a node of the open scene by the same path taken from a virtual
 * root whose children are the scene's root objects.
 *
 * Assumption: `GetComponentsInChildren` and the recursive walks of the
 * tools visit a subtree in pre-order (a node before its children,
 * children in index order); `PreOrder` fixes that order.
 */
module Scene {
  import opened Collections
  import opened Text

  /** The tag that keeps an object out of builds. */
  const EditorOnlyTag := "EditorOnly"
  const UntaggedTag := "Untagged"

  type MaterialId = nat
  type MeshId = nat
  /** A `Bounds` value; its float arithmetic is not modelled. */
  type BoundsValue = nat
  type Pos = seq<nat>

  /** A Transform reference held by a renderer: the path of the referenced object in the scene. */
  type ObjectRef = seq<nat>

  datatype RendererKind =
    | MeshRendererKind
    | SkinnedMeshRendererKind(sharedMesh: Option<MeshId>, rootBone: Option<ObjectRef>, localBounds: BoundsValue)
    | OtherRendererKind

  /** A Renderer: its kind, its material slots (a slot may hold null) and its Anchor Override. */
  datatype Renderer = Renderer(kind: RendererKind, sharedMaterials: seq<Option<MaterialId>>, probeAnchor: Option<ObjectRef>)

  /** An entry of `GetComponents<Component>()`: null for a missing script. */
  datatype Component = MissingComponent | Component(typeName: string, isTransform: bool)

  datatype GameObject = GameObject(
    name: string,
    tag: string,
    activeSelf: bool,
    renderer: Option<Renderer>,
    filterMesh: Option<MeshId>,
    components: seq<Component>,
    children: seq<GameObject>)

  /** The node itself without its subtree: what an in-place field write can change. */
  function Own(g: GameObject): GameObject
  {
    g.(children := [])
  }

  predicate ValidPos(t: GameObject, p: Pos)
    decreases |p|
  {
    |p| == 0 || (p[0] < |t.children| && ValidPos(t.children[p[0]], p[1..]))
  }

  function At(t: GameObject, p: Pos): GameObject
    requires ValidPos(t, p)
    decreases |p|
  {
    if |p| == 0 then t else At(t.children[p[0]], p[1..])
  }

  /** The names of the nodes strictly below `t` on the way down to `At(t, p)`. */
  function NamesBelow(t: GameObject, p: Pos): (r: seq<string>)
    requires ValidPos(t, p)
    ensures |r| == |p|
    decreases |p|
  {
    if |p| == 0 then [] else [t.children[p[0]].name] + NamesBelow(t.children[p[0]], p[1..])
  }

  lemma {:induction false} ValidPrefix(t: GameObject, p: Pos, k: nat)
    requires ValidPos(t, p) && k <= |p|
    ensures ValidPos(t, p[..k])
    decreases |p|
  {
    if k > 0 {
      ValidPrefix(t.children[p[0]], p[1..], k - 1);
      assert p[..k][1..] == p[1..][..k - 1];
    }
  }

  /** Walking `p` and then `q` is walking `p + q`. */
  lemma {:induction false} AtConcat(t: GameObject, p: Pos, q: Pos)
    requires ValidPos(t, p)
    ensures ValidPos(t, p + q) <==> ValidPos(At(t, p), q)
    ensures ValidPos(t, p + q) ==> At(t, p + q) == At(At(t, p), q)
    ensures ValidPos(t, p + q) ==> NamesBelow(t, p + q) == NamesBelow(t, p) + NamesBelow(At(t, p), q)
    decreases |p|
  {
    if |p| == 0 {
      assert p + q == q;
    } else {
      assert (p + q)[0] == p[0];
      assert (p + q)[1..] == p[1..] + q;
      AtConcat(t.children[p[0]], p[1..], q);
    }
  }

  /** One step further down: the `i`-th child of the node at `p`. */
  lemma AtSnoc(t: GameObject, p: Pos, i: nat)
    requires ValidPos(t, p)
    ensures ValidPos(t, p + [i]) <==> i < |At(t, p).children|
    ensures ValidPos(t, p + [i]) ==> At(t, p + [i]) == At(t, p).children[i]
    ensures ValidPos(t, p + [i]) ==> NamesBelow(t, p + [i]) == NamesBelow(t, p) + [At(t, p).children[i].name]
  {
    AtConcat(t, p, [i]);
    assert ValidPos(At(t, p), [i]) <==> i < |At(t, p).children| by {
      assert [i][1..] == [];
    }
    if i < |At(t, p).children| {
      assert [i][1..] == [];
    }
  }

  /** The `k`-th name below the root is the name of the node `k + 1` steps down. */
  lemma {:induction false} NamesBelowIndex(t: GameObject, p: Pos, k: nat)
    requires ValidPos(t, p) && k < |p|
    ensures ValidPos(t, p[..k + 1])
    ensures NamesBelow(t, p)[k] == At(t, p[..k + 1]).name
    decreases |p|
  {
    ValidPrefix(t, p, k + 1);
    if k > 0 {
      NamesBelowIndex(t.children[p[0]], p[1..], k - 1);
      assert p[..k + 1][1..] == p[1..][..k];
    }
  }

  // ---------------------------------------------------------------------
  // Pre-order traversal

  /** Every position of `t`, a node before its children, children in index order. */
  function PreOrder(t: GameObject): seq<Pos>
    decreases t, 1
  {
    [[]] + ChildrenPreOrder(t, 0)
  }

  function ChildrenPreOrder(t: GameObject, i: nat): seq<Pos>
    requires i <= |t.children|
    decreases t, 0, |t.children| - i
  {
    if i == |t.children| then []
    else Prefixed(i, PreOrder(t.children[i])) + ChildrenPreOrder(t, i + 1)
  }

  function Prefixed(i: nat, ps: seq<Pos>): (r: seq<Pos>)
    ensures |r| == |ps|
    ensures forall k :: 0 <= k < |ps| ==> r[k] == [i] + ps[k]
  {
    if |ps| == 0 then [] else [[i] + ps[0]] + Prefixed(i, ps[1..])
  }

  lemma PrefixedMember(i: nat, ps: seq<Pos>, p: Pos)
    ensures p in Prefixed(i, ps) <==> |p| > 0 && p[0] == i && p[1..] in ps
  {
    var r := Prefixed(i, ps);
    if p in r {
      var k :| 0 <= k < |r| && r[k] == p;
      assert p[1..] == ps[k];
    }
    if |p| > 0 && p[0] == i && p[1..] in ps {
      var k :| 0 <= k < |ps| && ps[k] == p[1..];
      assert r[k] == p;
    }
  }

  /** The pre-order lists exactly the valid positions. */
  lemma {:induction false} PreOrderValid(t: GameObject, p: Pos)
    ensures p in PreOrder(t) <==> ValidPos(t, p)
    decreases t, 1
  {
    if |p| > 0 {
      ChildrenPreOrderValid(t, 0, p);
    }
  }

  lemma {:induction false} ChildrenPreOrderValid(t: GameObject, i: nat, p: Pos)
    requires i <= |t.children| && |p| > 0
    ensures p in ChildrenPreOrder(t, i) <==> i <= p[0] && ValidPos(t, p)
    decreases t, 0, |t.children| - i
  {
    if i < |t.children| {
      ChildrenPreOrderValid(t, i + 1, p);
      PreOrderValid(t.children[i], p[1..]);
      PrefixedMember(i, PreOrder(t.children[i]), p);
    }
  }

  /** The positions of `t` that satisfy `f`, in pre-order. */
  function NodesWhere(t: GameObject, f: GameObject -> bool): (r: seq<Pos>)
    ensures forall i :: 0 <= i < |r| ==> ValidPos(t, r[i]) && f(At(t, r[i]))
    ensures forall p :: ValidPos(t, p) && f(At(t, p)) ==> p in r
  {
    var r := Filter(PreOrder(t), p => ValidPos(t, p) && f(At(t, p)));
    assert forall p :: ValidPos(t, p) ==> p in PreOrder(t) by {
      forall p | ValidPos(t, p) {
        PreOrderValid(t, p);
      }
    }
    r
  }

  // ---------------------------------------------------------------------
  // The open scene

  /** A virtual parent of the scene's root objects; scene paths start at one of its children. */
  function SceneRoot(scene: seq<GameObject>): GameObject
  {
    GameObject("", UntaggedTag, true, None, None, [], scene)
  }

  predicate InScene(scene: seq<GameObject>, a: ObjectRef)
  {
    |a| >= 1 && ValidPos(SceneRoot(scene), a)
  }

  /** An object field that is set and whose object still exists: Unity's `!= null`. */
  predicate IsLive(scene: seq<GameObject>, a: Option<ObjectRef>)
  {
    a.Some? && InScene(scene, a.value)
  }

  function SceneAt(scene: seq<GameObject>, a: ObjectRef): GameObject
    requires InScene(scene, a)
  {
    At(SceneRoot(scene), a)
  }

  // ---------------------------------------------------------------------
  // In-place updates of one node

  /**
   * `t` with the node at `p` replaced by `n`, which keeps that node's
   * children: the effect of assigning fields of one scene object.
   */
  function WithNode(t: GameObject, p: Pos, n: GameObject): GameObject
    requires ValidPos(t, p)
    decreases |p|
  {
    if |p| == 0 then n
    else t.(children := t.children[p[0] := WithNode(t.children[p[0]], p[1..], n)])
  }

  /** Replacing one node's fields moves no node and changes no other node's fields. */
  lemma {:induction false} WithNodeAt(t: GameObject, p: Pos, n: GameObject, q: Pos)
    requires ValidPos(t, p) && n.children == At(t, p).children
    ensures ValidPos(WithNode(t, p, n), q) <==> ValidPos(t, q)
    ensures ValidPos(t, q) ==> Own(At(WithNode(t, p, n), q)) == if q == p then Own(n) else Own(At(t, q))
    ensures ValidPos(t, q) && n.name == At(t, p).name ==> NamesBelow(WithNode(t, p, n), q) == NamesBelow(t, q)
    decreases |p|
  {
    var w := WithNode(t, p, n);
    if |p| == 0 {
      if |q| > 0 {
        assert w.children == t.children;
      }
      SameChildrenNames(t, n, q);
    } else if |q| == 0 {
    } else if q[0] != p[0] {
      assert |w.children| == |t.children|;
      if q[0] < |t.children| {
        assert w.children[q[0]] == t.children[q[0]];
      }
    } else {
      WithNodeAt(t.children[p[0]], p[1..], n, q[1..]);
      if q[1..] == p[1..] {
        assert q == p;
      }
      if q != p {
        assert q[1..] != p[1..];
      }
    }
  }

  /** The open scene with the fields of the object at `a` replaced by those of `n`. */
  function SceneWith(scene: seq<GameObject>, a: ObjectRef, n: GameObject): seq<GameObject>
    requires InScene(scene, a)
  {
    WithNode(SceneRoot(scene), a, n).children
  }

  /** Assigning the fields of one scene object keeps every object in place and changes no other. */
  lemma SceneWithAt(scene: seq<GameObject>, a: ObjectRef, n: GameObject, q: ObjectRef)
    requires InScene(scene, a) && n.children == SceneAt(scene, a).children
    ensures InScene(SceneWith(scene, a, n), q) <==> InScene(scene, q)
    ensures InScene(scene, q) ==>
      Own(SceneAt(SceneWith(scene, a, n), q)) == if q == a then Own(n) else Own(SceneAt(scene, q))
  {
    assert SceneRoot(SceneWith(scene, a, n)) == WithNode(SceneRoot(scene), a, n);
    WithNodeAt(SceneRoot(scene), a, n, q);
  }

  /** Two nodes with the same children have the same names below them. */
  lemma SameChildrenNames(t: GameObject, n: GameObject, q: Pos)
    requires n.children == t.children
    ensures ValidPos(n, q) <==> ValidPos(t, q)
    ensures ValidPos(t, q) ==> At(n, q) == (if |q| == 0 then n else At(t, q))
    ensures ValidPos(t, q) ==> NamesBelow(n, q) == NamesBelow(t, q)
  {
  }
}
