/**
 * The mesh statistics overlay of the Scene view: the counting helpers,
 * the calculator that walks the selection, the result record and the
 * refresh state machine that decides when to recount.
 *
 * The four accumulators the calculator threads through its recursion
 * (the processed-mesh and processed-material sets, passed by reference,
 * and the `ref` slot counter and child flag) are one `Totals` value here,
 * passed in and returned.
 */
module MeshInfo {
  import opened Collections
  import opened Scene
  import opened SubtreeOrder
  import opened MeshCounting

  /** The minimum time, in seconds, between two periodic recounts. */
  const UpdateIntervalSeconds: real := 0.2

  /** The five numbers the overlay shows. */
  datatype Stats = Stats(triangles: int, materials: int, meshes: int, materialSlots: int, hasChildObjects: bool)

  const ZeroStats := Stats(0, 0, 0, 0, false)

  /** The numbers the calculator reports for a selection. */
  ghost function Expected(table: MeshTable, objs: seq<GameObject>): Stats
  {
    var t := SelectionTotals(objs);
    Stats(MeshTriangles(table, t.meshes), |t.materials|, |t.meshes|, t.slots, t.hasChildObjects)
  }

  /** An empty selection shows zero everywhere and no "(Total)" flag. */
  lemma EmptySelection(table: MeshTable)
    ensures Expected(table, []) == ZeroStats
  {
  }

  class MeshInfoData {
    var triangles: int
    var materials: int
    var meshes: int
    var materialSlots: int
    var hasChildObjects: bool

    function Value(): Stats
      reads this
    {
      Stats(triangles, materials, meshes, materialSlots, hasChildObjects)
    }

    constructor()
      ensures Value() == ZeroStats
    {
      triangles, materials, meshes, materialSlots, hasChildObjects := 0, 0, 0, 0, false;
    }

    /** A record built with all five values given, as an object initializer does. */
    constructor WithValues(s: Stats)
      ensures Value() == s
    {
      triangles, materials, meshes, materialSlots, hasChildObjects := s.triangles, s.materials, s.meshes, s.materialSlots, s.hasChildObjects;
    }

    /** Sets every count to zero and clears the child flag; a second call changes nothing. */
    method Reset()
      modifies this
      ensures Value() == ZeroStats
    {
      triangles := 0;
      materials := 0;
      meshes := 0;
      materialSlots := 0;
      hasChildObjects := false;
    }

    /** A new record holding the same five values: changing it leaves this one alone. */
    method Clone() returns (c: MeshInfoData)
      ensures fresh(c)
      ensures c.Value() == Value()
      ensures unchanged(this)
    {
      c := new MeshInfoData.WithValues(Stats(triangles, materials, meshes, materialSlots, hasChildObjects));
    }
  }

  /** The triangles of a mesh: each sub-mesh's index count, cast to `int`, divided by three. */
  method CountTriangles(counts: seq<UInt32>) returns (n: int)
    ensures n == TriangleCount(counts)
  {
    n := 0;
    for i := 0 to |counts|
      invariant n == TriangleCount(counts[..i])
    {
      assert counts[..i + 1][..i] == counts[..i];
      n := n + TruncDiv3(ToInt32(counts[i]));
    }
    assert counts[..|counts|] == counts;
  }

  /**
   * Records the mesh as processed. A mesh seen before adds no triangles;
   * a new one adds its whole triangle count, so the result is always the
   * triangles of the meshes this call added to the set.
   */
  method ProcessMesh(table: MeshTable, mesh: MeshId, processed: set<MeshId>) returns (n: int, processed': set<MeshId>)
    ensures processed' == processed + {mesh}
    ensures mesh in processed ==> n == 0
    ensures mesh !in processed ==> n == TriangleCount(table(mesh))
    ensures n == MeshTriangles(table, processed' - processed)
  {
    if mesh in processed {
      assert processed + {mesh} - processed == {};
      return 0, processed;
    }
    processed' := processed + {mesh};
    n := CountTriangles(table(mesh));
    assert processed' - processed == {mesh};
    MeshTrianglesSingle(table, mesh);
  }

  /** Adds every non-null material of the slots to the set, and nothing else. */
  method ProcessMaterials(slots: seq<Option<MaterialId>>, processed: set<MaterialId>) returns (processed': set<MaterialId>)
    ensures processed' == processed + NonNull(slots)
    ensures forall m :: m in processed' <==> m in processed || Some(m) in slots
  {
    processed' := processed;
    for i := 0 to |slots|
      invariant processed' == processed + NonNull(slots[..i])
    {
      assert slots[..i + 1][..i] == slots[..i];
      if slots[i].Some? {
        processed' := processed' + {slots[i].value};
      }
    }
    assert slots[..|slots|] == slots;
    NonNullSpec(slots);
  }

  /**
   * The object's own mesh components. A MeshFilter mesh is processed, and
   * then the MeshRenderer's materials and slot count are added; a
   * SkinnedMeshRenderer with a mesh is processed on its own. The slot
   * count grows even when the mesh was already seen.
   */
  method ProcessStandardMeshComponents(table: MeshTable, g: GameObject, acc: Totals) returns (tri: int, acc': Totals)
    ensures acc' == Combine(acc, ComponentTotals(g))
    ensures tri == MeshTriangles(table, acc'.meshes - acc.meshes)
  {
    tri := 0;
    var meshes, mats, slots := acc.meshes, acc.materials, acc.slots;
    assert acc.meshes - acc.meshes == {};
    if g.filterMesh.Some? {
      var t;
      t, meshes := ProcessMesh(table, g.filterMesh.value, meshes);
      tri := tri + t;
      if g.renderer.Some? && g.renderer.value.kind.MeshRendererKind? {
        mats := ProcessMaterials(g.renderer.value.sharedMaterials, mats);
        slots := slots + |g.renderer.value.sharedMaterials|;
      }
    }
    ghost var mid := meshes;
    assert meshes == acc.meshes + OptionSet(g.filterMesh);
    assert mats == acc.materials + NonNull(FilterBranchSlots(g)) && slots == acc.slots + |FilterBranchSlots(g)|;
    ghost var midMats, midSlots := mats, slots;
    if g.renderer.Some? && g.renderer.value.kind.SkinnedMeshRendererKind? && g.renderer.value.kind.sharedMesh.Some? {
      var t;
      t, meshes := ProcessMesh(table, g.renderer.value.kind.sharedMesh.value, meshes);
      tri := tri + t;
      mats := ProcessMaterials(g.renderer.value.sharedMaterials, mats);
      slots := slots + |g.renderer.value.sharedMaterials|;
    } else {
      assert meshes - mid == {};
    }
    assert meshes == mid + OptionSet(SkinnedMesh(g));
    assert mats == midMats + NonNull(SkinnedBranchSlots(g)) && slots == midSlots + |SkinnedBranchSlots(g)|;
    MeshTrianglesChain(table, acc.meshes, mid, meshes);
    assert meshes == acc.meshes + NodeMeshes(g);
    assert mats == acc.materials + ComponentTotals(g).materials;
    acc' := Totals(meshes, mats, slots, acc.hasChildObjects);
  }

  /**
   * Visits `g` and its subtree unless `g` is tagged EditorOnly: sets the
   * child flag, processes the object's components, then each child in
   * order. Returns the triangles of the meshes first seen in this subtree.
   */
  method ProcessGameObject(table: MeshTable, g: GameObject, acc: Totals) returns (tri: int, acc': Totals)
    ensures acc' == Combine(acc, TreeTotals(g))
    ensures tri == MeshTriangles(table, acc'.meshes - acc.meshes)
    decreases g, 1
  {
    if g.tag == EditorOnlyTag {
      assert acc.meshes + {} - acc.meshes == {};
      return 0, acc;
    }
    acc' := acc;
    if !acc'.hasChildObjects && |g.children| > 0 {
      acc' := acc'.(hasChildObjects := true);
    }
    tri, acc' := ProcessStandardMeshComponents(table, g, acc');
    ghost var own := acc';
    var t;
    t, acc' := ProcessChildren(table, g.children, acc');
    MeshTrianglesChain(table, acc.meshes, own.meshes, acc'.meshes);
    tri := tri + t;
    TreeTotalsUnfold(acc, g);
  }

  /** The children loop of `ProcessGameObject`: each child's subtree in order. */
  method ProcessChildren(table: MeshTable, cs: seq<GameObject>, acc: Totals) returns (tri: int, acc': Totals)
    ensures acc' == Combine(acc, ForestTotals(cs, |cs|))
    ensures tri == MeshTriangles(table, acc'.meshes - acc.meshes)
    decreases cs, 0
  {
    tri, acc' := 0, acc;
    assert acc.meshes - acc.meshes == {};
    for i := 0 to |cs|
      invariant acc' == Combine(acc, ForestTotals(cs, i))
      invariant tri == MeshTriangles(table, acc'.meshes - acc.meshes)
    {
      var t;
      ghost var before := acc';
      t, acc' := ProcessGameObject(table, cs[i], acc');
      ForestTotalsSnoc(acc, cs, i);
      MeshTrianglesChain(table, acc.meshes, before.meshes, acc'.meshes);
      tri := tri + t;
    }
  }

  /** Walks every selected object in turn, sharing the processed sets across them. */
  method CountSelection(table: MeshTable, objs: seq<GameObject>) returns (tri: int, t: Totals)
    ensures t == SelectionTotals(objs)
    ensures tri == MeshTriangles(table, t.meshes)
  {
    tri, t := 0, NoTotals;
    for i := 0 to |objs|
      invariant t == SelectionTotals(objs[..i])
      invariant tri == MeshTriangles(table, t.meshes)
    {
      var n;
      ghost var before := t;
      assert objs[..i + 1][..i] == objs[..i];
      n, t := ProcessGameObject(table, objs[i], t);
      MeshTrianglesChain(table, {}, before.meshes, t.meshes);
      assert before.meshes - {} == before.meshes && t.meshes - {} == t.meshes;
      tri := tri + n;
    }
    assert objs[..|objs|] == objs;
  }

  /** Counts the whole selection into a new record. */
  method CalculateMeshInfo(table: MeshTable, objs: seq<GameObject>) returns (data: MeshInfoData)
    ensures fresh(data)
    ensures data.Value() == Expected(table, objs)
  {
    var tri, t := CountSelection(table, objs);
    data := new MeshInfoData.WithValues(Stats(tri, |t.materials|, |t.meshes|, t.slots, t.hasChildObjects));
  }

  /** The values of a freshly calculated record. */
  method CalculatedStats(table: MeshTable, objs: seq<GameObject>) returns (stats: Stats)
    ensures stats == Expected(table, objs)
  {
    var data := CalculateMeshInfo(table, objs);
    stats := data.Value();
  }

  /**
   * Whether the selection differs from the one last recorded: never when
   * nothing was recorded and nothing is selected, always when nothing was
   * recorded or the lengths differ, otherwise when some position holds a
   * different object.
   */
  function HasSelectionChanged(previous: Option<seq<ObjectRef>>, current: seq<ObjectRef>): (r: bool)
    ensures previous.None? ==> (r <==> |current| > 0)
    ensures previous.Some? ==> (r <==> previous.value != current)
  {
    if previous.None? && |current| == 0 then false
    else if previous.None? || |previous.value| != |current| then true
    else !(forall i :: 0 <= i < |current| ==> previous.value[i] == current[i])
  }

  /** The objects a selection of scene references denotes. */
  function SelectedObjects(scene: seq<GameObject>, selection: seq<ObjectRef>): (r: seq<GameObject>)
    requires AllInScene(scene, selection)
    ensures |r| == |selection|
    ensures forall i :: 0 <= i < |r| ==> r[i] == SceneAt(scene, selection[i])
  {
    if |selection| == 0 then []
    else SelectedObjects(scene, selection[..|selection| - 1]) + [SceneAt(scene, selection[|selection| - 1])]
  }

  /**
   * The overlay's refresh state. The source keeps it in static fields; the
   * visibility preference stands for the editor preference it persists.
   */
  class MeshInfoDisplay {
    var isDisplayVisible: bool
    var visibilityPreference: Option<bool>
    var previousSelection: Option<seq<ObjectRef>>
    var lastUpdateTime: real
    var forceUpdate: bool
    /** The values of the record the last count produced; the display never changes that record. */
    var currentData: Option<Stats>

    /** Loads the visibility (shown unless the preference says otherwise) and asks for a first count. */
    constructor(preference: Option<bool>)
      ensures isDisplayVisible == (preference.None? || preference.value)
      ensures visibilityPreference == preference
      ensures previousSelection.None? && forceUpdate && lastUpdateTime == 0.0 && currentData.None?
    {
      isDisplayVisible := if preference.Some? then preference.value else true;
      visibilityPreference := preference;
      previousSelection := None;
      forceUpdate := true;
      lastUpdateTime := 0.0;
      currentData := None;
    }

    /** Flips the visibility and stores the new value as the preference. */
    method ToggleDisplayVisibility()
      modifies this
      ensures isDisplayVisible == !old(isDisplayVisible)
      ensures visibilityPreference == Some(isDisplayVisible)
      ensures previousSelection == old(previousSelection) && lastUpdateTime == old(lastUpdateTime)
      ensures forceUpdate == old(forceUpdate) && currentData == old(currentData)
    {
      isDisplayVisible := !isDisplayVisible;
      visibilityPreference := Some(isDisplayVisible);
    }

    predicate ShouldUpdateMeshInfo(now: real)
      reads this
    {
      forceUpdate || now - lastUpdateTime >= UpdateIntervalSeconds
    }

    /**
     * One Scene view repaint. Hidden, or with no active object, it changes
     * nothing. Otherwise a changed selection is recorded and forces a
     * recount; the numbers are recounted when forced or when at least
     * 0.2 s have passed since the last count, which then clears the force
     * flag and stamps the time.
     */
    method OnSceneGUI(scene: seq<GameObject>, table: MeshTable, selection: seq<ObjectRef>, hasActiveObject: bool, now: real)
      requires AllInScene(scene, selection)
      modifies this
      ensures !old(isDisplayVisible) || !hasActiveObject ==> unchanged(this)
      ensures isDisplayVisible == old(isDisplayVisible) && visibilityPreference == old(visibilityPreference)
      ensures old(isDisplayVisible) && hasActiveObject ==>
        previousSelection == (if HasSelectionChanged(old(previousSelection), selection) then Some(selection) else old(previousSelection))
      ensures old(isDisplayVisible) && hasActiveObject ==> !HasSelectionChanged(previousSelection, selection)
      ensures (old(isDisplayVisible) && hasActiveObject &&
        (old(forceUpdate) || HasSelectionChanged(old(previousSelection), selection) || now - old(lastUpdateTime) >= UpdateIntervalSeconds)) ==>
          !forceUpdate && lastUpdateTime == now && currentData == Some(Expected(table, SelectedObjects(scene, selection)))
      ensures (old(isDisplayVisible) && hasActiveObject &&
        !(old(forceUpdate) || HasSelectionChanged(old(previousSelection), selection) || now - old(lastUpdateTime) >= UpdateIntervalSeconds)) ==>
          forceUpdate == old(forceUpdate) && lastUpdateTime == old(lastUpdateTime) && currentData == old(currentData)
    {
      if !isDisplayVisible || !hasActiveObject {
        return;
      }
      var selectionChanged := RecordSelection(selection);
      if ShouldUpdateMeshInfo(now) {
        Recount(table, SelectedObjects(scene, selection), now);
      }
    }

    /** A changed selection is stored and forces the next recount. */
    method RecordSelection(selection: seq<ObjectRef>) returns (changed: bool)
      modifies this
      ensures changed == HasSelectionChanged(old(previousSelection), selection)
      ensures previousSelection == (if changed then Some(selection) else old(previousSelection))
      ensures forceUpdate == (old(forceUpdate) || changed)
      ensures !HasSelectionChanged(previousSelection, selection)
      ensures isDisplayVisible == old(isDisplayVisible) && visibilityPreference == old(visibilityPreference)
      ensures lastUpdateTime == old(lastUpdateTime) && currentData == old(currentData)
    {
      changed := HasSelectionChanged(previousSelection, selection);
      if changed {
        forceUpdate := true;
        previousSelection := Some(selection);
      }
    }

    /** Recounts the selected objects, stamps the time and clears the force flag. */
    method Recount(table: MeshTable, objs: seq<GameObject>, now: real)
      modifies this
      ensures !forceUpdate && lastUpdateTime == now
      ensures currentData == Some(Expected(table, objs))
      ensures isDisplayVisible == old(isDisplayVisible) && visibilityPreference == old(visibilityPreference)
      ensures previousSelection == old(previousSelection)
    {
      var stats := CalculatedStats(table, objs);
      currentData, lastUpdateTime, forceUpdate := Some(stats), now, false;
    }
  }
}
