/**
 * The older mesh statistics overlay, which keeps its totals in static
 * fields. It differs from the newer calculator in two ways: a mesh's
 * materials and slots count only when the mesh is added to the processed
 * set for the first time, and the MeshFilter branch reads whatever
 * Renderer the object has. It recounts only when the selection array it
 * is handed is not the very array it stored last.
 */
module LegacyMeshInfo {
  import opened Collections
  import opened Scene
  import opened SubtreeOrder
  import opened MeshCounting
  import MeshInfo

  /** A renderer's non-null materials and its slot count, added to the totals. */
  function AddRendererSlots(s: Totals, slots: seq<Option<MaterialId>>): Totals
  {
    s.(materials := s.materials + NonNull(slots), slots := s.slots + |slots|)
  }

  /** The MeshFilter branch: a mesh new to the set is added with the materials and slots of whatever Renderer the object has. */
  function FilterStep(g: GameObject, s: Totals): Totals
  {
    if g.filterMesh.Some? && g.filterMesh.value !in s.meshes then
      var withMesh := s.(meshes := s.meshes + {g.filterMesh.value});
      if g.renderer.Some? then AddRendererSlots(withMesh, g.renderer.value.sharedMaterials) else withMesh
    else s
  }

  /** The SkinnedMeshRenderer branch: a mesh new to the set is added with the renderer's materials and slots. */
  function SkinnedStep(g: GameObject, s: Totals): Totals
  {
    if SkinnedMesh(g).Some? && SkinnedMesh(g).value !in s.meshes then
      AddRendererSlots(s.(meshes := s.meshes + {SkinnedMesh(g).value}), g.renderer.value.sharedMaterials)
    else s
  }

  /** The object's own components: each mesh new to the set brings its renderer's materials and slots. */
  function LegacyComponents(g: GameObject, s: Totals): Totals
  {
    SkinnedStep(g, FilterStep(g, s))
  }

  /** The totals after visiting `g` and its subtree, starting from `s`. */
  function LegacyVisit(g: GameObject, s: Totals): Totals
    decreases g, 0
  {
    if Pruned(g) then s
    else LegacyForest(g.children, |g.children|, LegacyComponents(g, s.(hasChildObjects := s.hasChildObjects || |g.children| > 0)))
  }

  function LegacyForest(cs: seq<GameObject>, n: nat, s: Totals): Totals
    requires n <= |cs|
    decreases cs, n
  {
    if n == 0 then s else LegacyVisit(cs[n - 1], LegacyForest(cs, n - 1, s))
  }

  function LegacySelection(objs: seq<GameObject>, s: Totals): Totals
  {
    if |objs| == 0 then s else LegacyVisit(objs[|objs| - 1], LegacySelection(objs[..|objs| - 1], s))
  }

  /** The numbers the older overlay shows for a selection. */
  ghost function LegacyExpected(table: MeshTable, objs: seq<GameObject>): MeshInfo.Stats
  {
    var t := LegacySelection(objs, NoTotals);
    MeshInfo.Stats(MeshTriangles(table, t.meshes), |t.materials|, |t.meshes|, t.slots, t.hasChildObjects)
  }

  /**
   * Both overlays reach the same meshes and the same child flag: only the
   * materials and slots differ.
   */
  lemma {:induction false} LegacyVisitAgrees(g: GameObject, s: Totals)
    ensures LegacyVisit(g, s).meshes == s.meshes + TreeTotals(g).meshes
    ensures LegacyVisit(g, s).hasChildObjects == (s.hasChildObjects || TreeTotals(g).hasChildObjects)
    decreases g, 0
  {
    if !Pruned(g) {
      var s0 := LegacyComponents(g, s.(hasChildObjects := s.hasChildObjects || |g.children| > 0));
      LegacyForestAgrees(g.children, |g.children|, s0);
    }
  }

  lemma {:induction false} LegacyForestAgrees(cs: seq<GameObject>, n: nat, s: Totals)
    requires n <= |cs|
    ensures LegacyForest(cs, n, s).meshes == s.meshes + ForestTotals(cs, n).meshes
    ensures LegacyForest(cs, n, s).hasChildObjects == (s.hasChildObjects || ForestTotals(cs, n).hasChildObjects)
    decreases cs, n
  {
    if n > 0 {
      LegacyForestAgrees(cs, n - 1, s);
      LegacyVisitAgrees(cs[n - 1], LegacyForest(cs, n - 1, s));
    }
  }

  lemma {:induction false} LegacySelectionAgrees(objs: seq<GameObject>, s: Totals)
    ensures LegacySelection(objs, s).meshes == s.meshes + SelectionTotals(objs).meshes
    ensures LegacySelection(objs, s).hasChildObjects == (s.hasChildObjects || SelectionTotals(objs).hasChildObjects)
  {
    if |objs| > 0 {
      LegacySelectionAgrees(objs[..|objs| - 1], s);
      LegacyVisitAgrees(objs[|objs| - 1], LegacySelection(objs[..|objs| - 1], s));
    }
  }

  /** The older overlay reports the same triangle and mesh counts and the same "(Total)" flag as the newer one. */
  lemma SameMeshCounts(table: MeshTable, objs: seq<GameObject>)
    ensures LegacyExpected(table, objs).triangles == MeshInfo.Expected(table, objs).triangles
    ensures LegacyExpected(table, objs).meshes == MeshInfo.Expected(table, objs).meshes
    ensures LegacyExpected(table, objs).hasChildObjects == MeshInfo.Expected(table, objs).hasChildObjects
  {
    LegacySelectionAgrees(objs, NoTotals);
    assert {} + SelectionTotals(objs).meshes == SelectionTotals(objs).meshes;
  }

  /** A subtree whose meshes are all processed already adds no materials and no slots. */
  lemma {:induction false} LegacyRevisit(g: GameObject, s: Totals)
    requires TreeTotals(g).meshes <= s.meshes
    ensures LegacyVisit(g, s) == s.(hasChildObjects := s.hasChildObjects || TreeTotals(g).hasChildObjects)
    decreases g, 0
  {
    if !Pruned(g) {
      var s0 := s.(hasChildObjects := s.hasChildObjects || |g.children| > 0);
      assert NodeMeshes(g) <= s.meshes;
      assert LegacyComponents(g, s0) == s0;
      LegacyForestRevisit(g.children, |g.children|, s0);
    }
  }

  lemma {:induction false} LegacyForestRevisit(cs: seq<GameObject>, n: nat, s: Totals)
    requires n <= |cs|
    requires ForestTotals(cs, n).meshes <= s.meshes
    ensures LegacyForest(cs, n, s) == s.(hasChildObjects := s.hasChildObjects || ForestTotals(cs, n).hasChildObjects)
    decreases cs, n
  {
    if n > 0 {
      LegacyForestRevisit(cs, n - 1, s);
      LegacyRevisit(cs[n - 1], LegacyForest(cs, n - 1, s));
    }
  }

  lemma {:induction false} LegacySelectionRevisit(objs: seq<GameObject>, s: Totals)
    requires SelectionTotals(objs).meshes <= s.meshes
    ensures LegacySelection(objs, s) == s.(hasChildObjects := s.hasChildObjects || SelectionTotals(objs).hasChildObjects)
  {
    if |objs| > 0 {
      LegacySelectionRevisit(objs[..|objs| - 1], s);
      LegacyRevisit(objs[|objs| - 1], LegacySelection(objs[..|objs| - 1], s));
    }
  }

  lemma {:induction false} LegacySelectionConcat(a: seq<GameObject>, b: seq<GameObject>, s: Totals)
    ensures LegacySelection(a + b, s) == LegacySelection(b, LegacySelection(a, s))
    decreases |b|
  {
    if |b| == 0 {
      assert a + b == a;
    } else {
      assert (a + b)[..|a + b| - 1] == a + b[..|b| - 1];
      LegacySelectionConcat(a, b[..|b| - 1], s);
    }
  }

  /**
   * Selecting the same objects twice changes none of the older overlay's
   * numbers, whereas the newer calculator counts every slot twice
   * (`MeshCounting.SelectionTwice`).
   */
  lemma LegacySelectionTwice(objs: seq<GameObject>)
    ensures LegacySelection(objs + objs, NoTotals) == LegacySelection(objs, NoTotals)
  {
    LegacySelectionConcat(objs, objs, NoTotals);
    LegacySelectionAgrees(objs, NoTotals);
    LegacySelectionRevisit(objs, LegacySelection(objs, NoTotals));
  }

  /**
   * The own mesh components of one object: every mesh they hold ends up in
   * the processed set, and when all of them were there already the object
   * adds nothing at all, neither materials nor slots.
   */
  lemma LegacyComponentsSpec(g: GameObject, s: Totals)
    ensures LegacyComponents(g, s).meshes == s.meshes + NodeMeshes(g)
    ensures NodeMeshes(g) <= s.meshes ==> LegacyComponents(g, s) == s
    ensures LegacyComponents(g, s).slots >= s.slots
  {
  }

  /** The MeshFilter branch; returns the triangles of the mesh when it is new. */
  method ProcessFilterMesh(table: MeshTable, g: GameObject, s: Totals) returns (tri: int, s': Totals)
    ensures s' == FilterStep(g, s)
    ensures tri == MeshTriangles(table, s'.meshes - s.meshes)
  {
    tri, s' := 0, s;
    if g.filterMesh.Some? && g.filterMesh.value !in s'.meshes {
      s' := s'.(meshes := s'.meshes + {g.filterMesh.value});
      tri := MeshInfo.CountTriangles(table(g.filterMesh.value));
      assert s'.meshes - s.meshes == {g.filterMesh.value};
      MeshTrianglesSingle(table, g.filterMesh.value);
      if g.renderer.Some? {
        var mats := MeshInfo.ProcessMaterials(g.renderer.value.sharedMaterials, s'.materials);
        s' := s'.(materials := mats, slots := s'.slots + |g.renderer.value.sharedMaterials|);
      }
    } else {
      assert s.meshes - s.meshes == {};
    }
  }

  /** The SkinnedMeshRenderer branch; returns the triangles of the mesh when it is new. */
  method ProcessSkinnedMesh(table: MeshTable, g: GameObject, s: Totals) returns (tri: int, s': Totals)
    ensures s' == SkinnedStep(g, s)
    ensures tri == MeshTriangles(table, s'.meshes - s.meshes)
  {
    tri, s' := 0, s;
    if g.renderer.Some? && g.renderer.value.kind.SkinnedMeshRendererKind? && g.renderer.value.kind.sharedMesh.Some?
       && g.renderer.value.kind.sharedMesh.value !in s'.meshes {
      var mesh := g.renderer.value.kind.sharedMesh.value;
      s' := s'.(meshes := s'.meshes + {mesh});
      tri := MeshInfo.CountTriangles(table(mesh));
      assert s'.meshes - s.meshes == {mesh};
      MeshTrianglesSingle(table, mesh);
      var mats := MeshInfo.ProcessMaterials(g.renderer.value.sharedMaterials, s'.materials);
      s' := s'.(materials := mats, slots := s'.slots + |g.renderer.value.sharedMaterials|);
    } else {
      assert s.meshes - s.meshes == {};
    }
  }

  /**
   * Visits `g` and its subtree unless `g` is tagged EditorOnly, returning
   * the triangles of the meshes first seen in this subtree.
   */
  method ProcessMeshData(table: MeshTable, g: GameObject, s: Totals) returns (tri: int, s': Totals)
    ensures s' == LegacyVisit(g, s)
    ensures tri == MeshTriangles(table, s'.meshes - s.meshes)
    decreases g
  {
    if g.tag == EditorOnlyTag {
      assert s.meshes - s.meshes == {};
      return 0, s;
    }
    s' := s;
    if !s'.hasChildObjects && |g.children| > 0 {
      s' := s'.(hasChildObjects := true);
    }
    ghost var marked := s';
    tri, s' := ProcessFilterMesh(table, g, s');
    ghost var mid := s';
    var t;
    t, s' := ProcessSkinnedMesh(table, g, s');
    LegacyComponentsSpec(g, marked);
    MeshTrianglesChain(table, marked.meshes, mid.meshes, s'.meshes);
    tri := tri + t;
    ghost var own := s';
    for i := 0 to |g.children|
      invariant s' == LegacyForest(g.children, i, own)
      invariant s.meshes <= s'.meshes
      invariant tri == MeshTriangles(table, s'.meshes - s.meshes)
    {
      var t;
      ghost var before := s';
      t, s' := ProcessMeshData(table, g.children[i], s');
      LegacyVisitAgrees(g.children[i], before);
      MeshTrianglesChain(table, s.meshes, before.meshes, s'.meshes);
      tri := tri + t;
    }
  }

  /** Runs the recursive count over every selected object, sharing the processed sets. */
  method CountSelection(table: MeshTable, objs: seq<GameObject>) returns (tri: int, t: Totals)
    ensures t == LegacySelection(objs, NoTotals)
    ensures tri == MeshTriangles(table, t.meshes)
  {
    tri, t := 0, NoTotals;
    for i := 0 to |objs|
      invariant t == LegacySelection(objs[..i], NoTotals)
      invariant tri == MeshTriangles(table, t.meshes)
    {
      var n;
      ghost var before := t;
      assert objs[..i + 1][..i] == objs[..i];
      n, t := ProcessMeshData(table, objs[i], t);
      LegacyVisitAgrees(objs[i], before);
      MeshTrianglesChain(table, {}, before.meshes, t.meshes);
      assert before.meshes - {} == before.meshes && t.meshes - {} == t.meshes;
      tri := tri + n;
    }
    assert objs[..|objs|] == objs;
  }

  /**
   * The older overlay's static state. A selection is the array the editor
   * hands over; the overlay compares it with the stored one by reference.
   */
  class LegacyMeshInfoDisplay {
    var isDisplayVisible: bool
    var visibilityPreference: Option<bool>
    var totalTriangles: int
    var totalMaterials: int
    var totalMeshes: int
    var totalMaterialSlots: int
    var hasChildObjects: bool
    var previousSelection: array?<ObjectRef>

    function Shown(): MeshInfo.Stats
      reads this
    {
      MeshInfo.Stats(totalTriangles, totalMaterials, totalMeshes, totalMaterialSlots, hasChildObjects)
    }

    constructor(preference: Option<bool>)
      ensures isDisplayVisible == (preference.None? || preference.value)
      ensures visibilityPreference == preference
      ensures previousSelection == null && Shown() == MeshInfo.ZeroStats
    {
      isDisplayVisible := if preference.Some? then preference.value else true;
      visibilityPreference := preference;
      totalTriangles, totalMaterials, totalMeshes, totalMaterialSlots, hasChildObjects := 0, 0, 0, 0, false;
      previousSelection := null;
    }

    /** Flips the visibility and stores the new value as the preference. */
    method ToggleDisplayVisibility()
      modifies this
      ensures isDisplayVisible == !old(isDisplayVisible)
      ensures visibilityPreference == Some(isDisplayVisible)
      ensures Shown() == old(Shown()) && previousSelection == old(previousSelection)
    {
      isDisplayVisible := !isDisplayVisible;
      visibilityPreference := Some(isDisplayVisible);
    }

    method SetTotals(stats: MeshInfo.Stats)
      modifies this
      ensures Shown() == stats
      ensures isDisplayVisible == old(isDisplayVisible) && visibilityPreference == old(visibilityPreference)
      ensures previousSelection == old(previousSelection)
    {
      totalTriangles, totalMaterials, totalMeshes := stats.triangles, stats.materials, stats.meshes;
      totalMaterialSlots, hasChildObjects := stats.materialSlots, stats.hasChildObjects;
    }

    /** Zeroes the totals and recounts them for the selection. */
    method CalculateMeshInfo(scene: seq<GameObject>, table: MeshTable, selection: array<ObjectRef>)
      requires AllInScene(scene, selection[..])
      modifies this
      ensures Shown() == LegacyExpected(table, MeshInfo.SelectedObjects(scene, selection[..]))
      ensures isDisplayVisible == old(isDisplayVisible) && visibilityPreference == old(visibilityPreference)
      ensures previousSelection == old(previousSelection)
    {
      SetTotals(MeshInfo.ZeroStats);
      var tri, t := CountSelection(table, MeshInfo.SelectedObjects(scene, selection[..]));
      SetTotals(MeshInfo.Stats(tri, |t.materials|, |t.meshes|, t.slots, t.hasChildObjects));
    }

    /**
     * One Scene view repaint: hidden, or with no active object, nothing
     * changes; otherwise the totals are recounted exactly when the array
     * differs from the stored one, which is then stored.
     */
    method OnSceneGUI(scene: seq<GameObject>, table: MeshTable, selection: array<ObjectRef>, hasActiveObject: bool)
      requires AllInScene(scene, selection[..])
      modifies this
      ensures !old(isDisplayVisible) || !hasActiveObject || old(previousSelection) == selection ==> unchanged(this)
      ensures (old(isDisplayVisible) && hasActiveObject && old(previousSelection) != selection) ==>
        previousSelection == selection && Shown() == LegacyExpected(table, MeshInfo.SelectedObjects(scene, selection[..]))
      ensures isDisplayVisible == old(isDisplayVisible) && visibilityPreference == old(visibilityPreference)
    {
      if !isDisplayVisible || !hasActiveObject {
        return;
      }
      if previousSelection != selection {
        CalculateMeshInfo(scene, table, selection);
        previousSelection := selection;
      }
    }
  }
}
