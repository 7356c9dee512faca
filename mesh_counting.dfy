/**
 * What the mesh statistics overlay counts, stated on the hierarchy.
 *
 * A mesh asset is known by its identity; `MeshTable` gives the index
 * count of each of its sub-meshes. The overlay visits every selected
 * object and its subtree in pre-order, skipping any object tagged
 * "EditorOnly" together with its subtree, and gathers the distinct
 * meshes, the distinct non-null materials, the number of material slots
 * and whether a visited object has children.
 */
module MeshCounting {
  import opened Collections
  import opened Scene

  /** An unsigned 32-bit value, as `Mesh.GetIndexCount` returns it. */
  type UInt32 = x: int | 0 <= x < 0x1_0000_0000

  /** The index count of every sub-mesh of a mesh asset, in sub-mesh order. */
  type MeshTable = MeshId -> seq<UInt32>


  /** C#'s unchecked `(int)` cast of a `uint`: values from 2^31 up wrap to negative numbers. */
  function ToInt32(u: UInt32): (r: int)
    ensures -0x8000_0000 <= r < 0x8000_0000
    ensures r == u || r == u - 0x1_0000_0000
    ensures u < 0x8000_0000 <==> r == u
  {
    if u < 0x8000_0000 then u else u - 0x1_0000_0000
  }

  /** C#'s `x / 3` on `int`, which truncates toward zero. */
  function TruncDiv3(x: int): (r: int)
    ensures x >= 0 ==> 0 <= 3 * r <= x < 3 * r + 3
    ensures x < 0 ==> 3 * r - 3 < x <= 3 * r <= 0
  {
    if x >= 0 then x / 3 else -((-x) / 3)
  }

  /** The triangles one sub-mesh contributes: `(int)indexCount / 3`. */
  function SubMeshTriangles(indexCount: UInt32): int
  {
    TruncDiv3(ToInt32(indexCount))
  }

  /** The triangle count of a mesh with the given sub-mesh index counts. */
  function TriangleCount(counts: seq<UInt32>): int
  {
    if |counts| == 0 then 0
    else TriangleCount(counts[..|counts| - 1]) + SubMeshTriangles(counts[|counts| - 1])
  }

  function IndexTotal(counts: seq<UInt32>): int
  {
    if |counts| == 0 then 0 else IndexTotal(counts[..|counts| - 1]) + counts[|counts| - 1]
  }

  /**
   * For index counts below 2^31 (every mesh Unity can hold) the count is
   * the integer quotient of each sub-mesh's index count by three: never
   * negative, at most a third of all indices, and short of that third by
   * less than one triangle per sub-mesh.
   */
  lemma {:induction false} TriangleCountBounds(counts: seq<UInt32>)
    requires forall i :: 0 <= i < |counts| ==> counts[i] < 0x8000_0000
    ensures 0 <= 3 * TriangleCount(counts) <= IndexTotal(counts)
    ensures IndexTotal(counts) < 3 * TriangleCount(counts) + 3 * |counts| || |counts| == 0
  {
    if |counts| > 0 {
      var init := counts[..|counts| - 1];
      assert forall i :: 0 <= i < |init| ==> init[i] == counts[i];
      TriangleCountBounds(init);
    }
  }

  /** The total triangle count of a set of distinct meshes, each counted once. */
  ghost function MeshTriangles(table: MeshTable, meshes: set<MeshId>): int
    decreases meshes
  {
    if meshes == {} then 0
    else
      var m :| m in meshes;
      TriangleCount(table(m)) + MeshTriangles(table, meshes - {m})
  }

  lemma {:induction false} MeshTrianglesRemove(table: MeshTable, meshes: set<MeshId>, x: MeshId)
    requires x in meshes
    ensures MeshTriangles(table, meshes) == TriangleCount(table(x)) + MeshTriangles(table, meshes - {x})
    decreases meshes
  {
    var m :| m in meshes && MeshTriangles(table, meshes) == TriangleCount(table(m)) + MeshTriangles(table, meshes - {m});
    if m != x {
      MeshTrianglesRemove(table, meshes - {m}, x);
      MeshTrianglesRemove(table, meshes - {x}, m);
      assert meshes - {m} - {x} == meshes - {x} - {m};
    }
  }

  /** Disjoint sets of meshes add up their triangle counts. */
  lemma {:induction false} MeshTrianglesUnion(table: MeshTable, a: set<MeshId>, b: set<MeshId>)
    requires a !! b
    ensures MeshTriangles(table, a + b) == MeshTriangles(table, a) + MeshTriangles(table, b)
    decreases b
  {
    if b != {} {
      var y :| y in b;
      MeshTrianglesRemove(table, a + b, y);
      MeshTrianglesRemove(table, b, y);
      assert (a + b) - {y} == a + (b - {y});
      MeshTrianglesUnion(table, a, b - {y});
    } else {
      assert a + b == a;
    }
  }

  /** The meshes added in two successive steps count as the sum of each step's new meshes. */
  lemma MeshTrianglesChain(table: MeshTable, a: set<MeshId>, b: set<MeshId>, c: set<MeshId>)
    requires a <= b <= c
    ensures MeshTriangles(table, c - a) == MeshTriangles(table, b - a) + MeshTriangles(table, c - b)
  {
    assert c - a == (b - a) + (c - b);
    MeshTrianglesUnion(table, b - a, c - b);
  }

  lemma MeshTrianglesSingle(table: MeshTable, m: MeshId)
    ensures MeshTriangles(table, {m}) == TriangleCount(table(m))
  {
    MeshTrianglesRemove(table, {m}, m);
    assert {m} - {m} == {};
  }

  /** The distinct non-null materials of a list of material slots. */
  function NonNull(slots: seq<Option<MaterialId>>): set<MaterialId>
  {
    if |slots| == 0 then {}
    else NonNull(slots[..|slots| - 1]) + (if slots[|slots| - 1].Some? then {slots[|slots| - 1].value} else {})
  }

  lemma {:induction false} NonNullSpec(slots: seq<Option<MaterialId>>)
    ensures forall m :: m in NonNull(slots) <==> Some(m) in slots
  {
    if |slots| > 0 {
      var init := slots[..|slots| - 1];
      assert slots == init + [slots[|slots| - 1]];
      NonNullSpec(init);
    }
  }

  function OptionSet(o: Option<MeshId>): set<MeshId>
  {
    if o.Some? then {o.value} else {}
  }

  /** The mesh of the object's SkinnedMeshRenderer, when it has one with a mesh. */
  function SkinnedMesh(g: GameObject): Option<MeshId>
  {
    if g.renderer.Some? && g.renderer.value.kind.SkinnedMeshRendererKind? then g.renderer.value.kind.sharedMesh else None
  }

  /** The meshes the object's MeshFilter and SkinnedMeshRenderer hold. */
  function NodeMeshes(g: GameObject): set<MeshId>
  {
    OptionSet(g.filterMesh) + OptionSet(SkinnedMesh(g))
  }

  /** The slots read through the MeshFilter: those of a MeshRenderer, when the MeshFilter has a mesh. */
  function FilterBranchSlots(g: GameObject): seq<Option<MaterialId>>
  {
    if g.filterMesh.Some? && g.renderer.Some? && g.renderer.value.kind.MeshRendererKind? then g.renderer.value.sharedMaterials else []
  }

  /** The slots of a SkinnedMeshRenderer that has a mesh. */
  function SkinnedBranchSlots(g: GameObject): seq<Option<MaterialId>>
  {
    if SkinnedMesh(g).Some? then g.renderer.value.sharedMaterials else []
  }

  predicate Pruned(g: GameObject)
  {
    g.tag == EditorOnlyTag
  }

  /**
   * What the counters accumulate: the distinct meshes and materials seen,
   * the material slots summed over every visit, and whether a visited
   * object had children.
   */
  datatype Totals = Totals(meshes: set<MeshId>, materials: set<MaterialId>, slots: int, hasChildObjects: bool)

  const NoTotals := Totals({}, {}, 0, false)

  function Combine(a: Totals, b: Totals): Totals
  {
    Totals(a.meshes + b.meshes, a.materials + b.materials, a.slots + b.slots, a.hasChildObjects || b.hasChildObjects)
  }

  lemma CombineAssoc(a: Totals, b: Totals, c: Totals)
    ensures Combine(Combine(a, b), c) == Combine(a, Combine(b, c))
  {
    assert (a.meshes + b.meshes) + c.meshes == a.meshes + (b.meshes + c.meshes);
    assert (a.materials + b.materials) + c.materials == a.materials + (b.materials + c.materials);
  }

  /** What the object's own MeshFilter, MeshRenderer and SkinnedMeshRenderer add. */
  function ComponentTotals(g: GameObject): Totals
  {
    Totals(NodeMeshes(g), NonNull(FilterBranchSlots(g)) + NonNull(SkinnedBranchSlots(g)),
           |FilterBranchSlots(g)| + |SkinnedBranchSlots(g)|, false)
  }

  /** What visiting `g` and its subtree adds. */
  function TreeTotals(g: GameObject): Totals
    decreases g, 0
  {
    if Pruned(g) then NoTotals
    else Combine(ComponentTotals(g).(hasChildObjects := |g.children| > 0), ForestTotals(g.children, |g.children|))
  }

  /** What visiting the first `n` trees of `cs`, in order, adds. */
  function ForestTotals(cs: seq<GameObject>, n: nat): Totals
    requires n <= |cs|
    decreases cs, n
  {
    if n == 0 then NoTotals else Combine(ForestTotals(cs, n - 1), TreeTotals(cs[n - 1]))
  }

  /** Visiting a tree that is not pruned: flag children, add the own components, then the children in order. */
  lemma TreeTotalsUnfold(acc: Totals, g: GameObject)
    requires !Pruned(g)
    ensures Combine(Combine(acc.(hasChildObjects := acc.hasChildObjects || |g.children| > 0), ComponentTotals(g)),
                    ForestTotals(g.children, |g.children|))
         == Combine(acc, TreeTotals(g))
  {
  }

  lemma ForestTotalsSnoc(acc: Totals, cs: seq<GameObject>, i: nat)
    requires i < |cs|
    ensures Combine(Combine(acc, ForestTotals(cs, i)), TreeTotals(cs[i])) == Combine(acc, ForestTotals(cs, i + 1))
  {
  }

  /** What visiting every selected object adds, in selection order. */
  function SelectionTotals(objs: seq<GameObject>): Totals
  {
    if |objs| == 0 then NoTotals
    else Combine(SelectionTotals(objs[..|objs| - 1]), TreeTotals(objs[|objs| - 1]))
  }

  lemma SelectionTotalsSnoc(objs: seq<GameObject>, last: GameObject)
    ensures SelectionTotals(objs + [last]) == Combine(SelectionTotals(objs), TreeTotals(last))
  {
    assert (objs + [last])[..|objs|] == objs;
  }

  lemma {:induction false} SelectionTotalsConcat(a: seq<GameObject>, b: seq<GameObject>)
    ensures SelectionTotals(a + b) == Combine(SelectionTotals(a), SelectionTotals(b))
    decreases |b|
  {
    if |b| == 0 {
      assert a + b == a;
    } else {
      var bInit, last := b[..|b| - 1], b[|b| - 1];
      assert a + b == (a + bInit) + [last] && b == bInit + [last];
      SelectionTotalsConcat(a, bInit);
      SelectionTotalsSnoc(a + bInit, last);
      SelectionTotalsSnoc(bInit, last);
      CombineAssoc(SelectionTotals(a), SelectionTotals(bInit), TreeTotals(last));
    }
  }

  /**
   * Selecting the same objects twice reaches the same meshes and
   * materials, so the distinct counts and the triangles do not change,
   * but every slot is counted a second time.
   */
  lemma SelectionTwice(objs: seq<GameObject>)
    ensures SelectionTotals(objs + objs).meshes == SelectionTotals(objs).meshes
    ensures SelectionTotals(objs + objs).materials == SelectionTotals(objs).materials
    ensures SelectionTotals(objs + objs).slots == 2 * SelectionTotals(objs).slots
    ensures SelectionTotals(objs + objs).hasChildObjects == SelectionTotals(objs).hasChildObjects
  {
    SelectionTotalsConcat(objs, objs);
  }

  /** A node of `g` the walk reaches: no object on the way down to it, itself included, is tagged EditorOnly. */
  predicate Visited(g: GameObject, p: Pos)
    decreases |p|
  {
    !Pruned(g) && (|p| == 0 || (p[0] < |g.children| && Visited(g.children[p[0]], p[1..])))
  }

  lemma {:induction false} VisitedValid(g: GameObject, p: Pos)
    requires Visited(g, p)
    ensures ValidPos(g, p)
    decreases |p|
  {
    if |p| > 0 {
      VisitedValid(g.children[p[0]], p[1..]);
    }
  }

  function HoldsMesh(m: MeshId): GameObject -> bool
  {
    (n: GameObject) => m in NodeMeshes(n)
  }

  function ReadsMaterial(mat: MaterialId): GameObject -> bool
  {
    (n: GameObject) => mat in ComponentTotals(n).materials
  }

  predicate HasChildren(n: GameObject)
  {
    |n.children| > 0
  }

  /** Some reached node of `g` satisfies `f`. */
  ghost predicate AnyVisited(g: GameObject, f: GameObject -> bool)
  {
    exists p :: Visited(g, p) && ValidPos(g, p) && f(At(g, p))
  }

  /** Some reached node of one of the first `n` trees of `cs` satisfies `f`. */
  ghost predicate AnyVisitedIn(cs: seq<GameObject>, n: nat, f: GameObject -> bool)
    requires n <= |cs|
  {
    exists i :: 0 <= i < n && AnyVisited(cs[i], f)
  }

  lemma AnyVisitedInSnoc(cs: seq<GameObject>, n: nat, f: GameObject -> bool)
    requires 0 < n <= |cs|
    ensures AnyVisitedIn(cs, n, f) <==> AnyVisitedIn(cs, n - 1, f) || AnyVisited(cs[n - 1], f)
  {
  }

  /** A reached node of `g` is `g` itself or a reached node of one of its children. */
  lemma AnyVisitedStep(g: GameObject, f: GameObject -> bool)
    ensures AnyVisited(g, f) <==> !Pruned(g) && (f(g) || AnyVisitedIn(g.children, |g.children|, f))
  {
    if AnyVisited(g, f) {
      var p :| Visited(g, p) && ValidPos(g, p) && f(At(g, p));
      if |p| > 0 {
        var c := g.children[p[0]];
        VisitedValid(c, p[1..]);
        assert AnyVisited(c, f);
      }
    }
    if !Pruned(g) && f(g) {
      assert Visited(g, []) && ValidPos(g, []) && At(g, []) == g;
    }
    if !Pruned(g) && AnyVisitedIn(g.children, |g.children|, f) {
      var i :| 0 <= i < |g.children| && AnyVisited(g.children[i], f);
      var q :| Visited(g.children[i], q) && ValidPos(g.children[i], q) && f(At(g.children[i], q));
      var p := [i] + q;
      assert p[1..] == q;
      assert Visited(g, p) && ValidPos(g, p) && At(g, p) == At(g.children[i], q);
    }
  }

  /**
   * The meshes counted for `g` are exactly those of the reached nodes:
   * an EditorOnly object hides its whole subtree.
   */
  lemma {:induction false} TreeMeshesReached(g: GameObject, m: MeshId)
    ensures m in TreeTotals(g).meshes <==> AnyVisited(g, HoldsMesh(m))
    decreases g, 0
  {
    AnyVisitedStep(g, HoldsMesh(m));
    if !Pruned(g) {
      ForestMeshesReached(g.children, |g.children|, m);
    }
  }

  lemma {:induction false} ForestMeshesReached(cs: seq<GameObject>, n: nat, m: MeshId)
    requires n <= |cs|
    ensures m in ForestTotals(cs, n).meshes <==> AnyVisitedIn(cs, n, HoldsMesh(m))
    decreases cs, n
  {
    if n > 0 {
      ForestMeshesReached(cs, n - 1, m);
      TreeMeshesReached(cs[n - 1], m);
      AnyVisitedInSnoc(cs, n, HoldsMesh(m));
    }
  }

  /** The materials counted for `g` are exactly the non-null slots the reached nodes' mesh branches read. */
  lemma {:induction false} TreeMaterialsReached(g: GameObject, mat: MaterialId)
    ensures mat in TreeTotals(g).materials <==> AnyVisited(g, ReadsMaterial(mat))
    decreases g, 0
  {
    AnyVisitedStep(g, ReadsMaterial(mat));
    if !Pruned(g) {
      ForestMaterialsReached(g.children, |g.children|, mat);
    }
  }

  lemma {:induction false} ForestMaterialsReached(cs: seq<GameObject>, n: nat, mat: MaterialId)
    requires n <= |cs|
    ensures mat in ForestTotals(cs, n).materials <==> AnyVisitedIn(cs, n, ReadsMaterial(mat))
    decreases cs, n
  {
    if n > 0 {
      ForestMaterialsReached(cs, n - 1, mat);
      TreeMaterialsReached(cs[n - 1], mat);
      AnyVisitedInSnoc(cs, n, ReadsMaterial(mat));
    }
  }

  /** The "(Total)" flag of `g` holds exactly when a reached node has a child. */
  lemma {:induction false} TreeHasChildrenReached(g: GameObject)
    ensures TreeTotals(g).hasChildObjects <==> AnyVisited(g, HasChildren)
    decreases g, 0
  {
    AnyVisitedStep(g, HasChildren);
    if !Pruned(g) {
      ForestHasChildrenReached(g.children, |g.children|);
    }
  }

  lemma {:induction false} ForestHasChildrenReached(cs: seq<GameObject>, n: nat)
    requires n <= |cs|
    ensures ForestTotals(cs, n).hasChildObjects <==> AnyVisitedIn(cs, n, HasChildren)
    decreases cs, n
  {
    if n > 0 {
      ForestHasChildrenReached(cs, n - 1);
      TreeHasChildrenReached(cs[n - 1]);
      AnyVisitedInSnoc(cs, n, HasChildren);
    }
  }
}
