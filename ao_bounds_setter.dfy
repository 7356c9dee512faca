/**
 * The AO Bounds Setter window: a list of the renderers under a root
 * object, each with a tick box, a tri-state header box that ticks or
 * clears them all, and an Apply button that writes one Anchor Override,
 * one bounds value and one Root Bone into every ticked renderer.
 *
 * A row names its renderer by the scene reference of the object that
 * carries it (an object carries at most one Renderer). The scene is a
 * value: Apply returns the scene after its field writes. A destroyed or
 * unset root object is Unity's null, so a root that is not in the scene
 * counts as no root.
 */
module AOBoundsSetter {
  import opened Collections
  import opened Scene
  import opened SubtreeOrder

  /** One row of the list (`MeshRendererData`): the renderer it shows and whether it is ticked. */
  datatype MeshRendererData = MeshRendererData(renderer: ObjectRef, isSelected: bool)

  /** The header tick box: its value and whether it shows the mixed-value dash. */
  datatype HeaderState = HeaderState(value: bool, showMixed: bool)

  /** The values of the Anchor Override, bounds and Root Bone fields; bounds arithmetic is opaque. */
  datatype ApplySettings = ApplySettings(anchorOverride: Option<ObjectRef>, bounds: BoundsValue, rootBone: Option<ObjectRef>)

  /** How many renderers had their Anchor Override, bounds and Root Bone written. */
  datatype AppliedCounts = AppliedCounts(anchorOverride: nat, bounds: nat, rootBone: nat)

  predicate HasRenderer(scene: seq<GameObject>, a: ObjectRef)
  {
    InScene(scene, a) && SceneAt(scene, a).renderer.Some?
  }

  // ---------------------------------------------------------------------
  // The list

  /** `GetComponentsInChildren<Renderer>(true)` on `root`: the renderer holders of its subtree in pre-order. */
  function RenderersUnder(scene: seq<GameObject>, root: ObjectRef): seq<ObjectRef>
    requires InScene(scene, root)
  {
    Filter(Subtree(scene, root), a => HasRenderer(scene, a))
  }

  /** The list holds every renderer at or below the root, each once. */
  lemma RenderersUnderSpec(scene: seq<GameObject>, root: ObjectRef, a: ObjectRef)
    requires InScene(scene, root)
    ensures a in RenderersUnder(scene, root) <==> HasRenderer(scene, a) && root <= a
    ensures Distinct(RenderersUnder(scene, root))
  {
    FilterMember(Subtree(scene, root), a' => HasRenderer(scene, a'), a);
    SubtreeMember(scene, root, a);
    SubtreeFacts(scene, root);
    FilterDistinct(Subtree(scene, root), a' => HasRenderer(scene, a'));
  }

  /** The renderers RefreshMeshList lists: none without a live root or for a prefab asset. */
  function ExpectedRenderers(scene: seq<GameObject>, root: Option<ObjectRef>, isPrefabAsset: bool): seq<ObjectRef>
  {
    if !IsLive(scene, root) || isPrefabAsset then [] else RenderersUnder(scene, root.value)
  }

  function Listed(rows: seq<MeshRendererData>): (r: seq<ObjectRef>)
    ensures |r| == |rows|
    ensures forall i :: 0 <= i < |rows| ==> r[i] == rows[i].renderer
  {
    if |rows| == 0 then [] else Listed(rows[..|rows| - 1]) + [rows[|rows| - 1].renderer]
  }

  predicate AllTicked(rows: seq<MeshRendererData>)
  {
    forall i :: 0 <= i < |rows| ==> rows[i].isSelected
  }

  /** The rows of a fresh list: one ticked row per renderer, in order. */
  method CreateRows(renderers: seq<ObjectRef>) returns (rows: seq<MeshRendererData>)
    ensures Listed(rows) == renderers && AllTicked(rows)
  {
    rows := [];
    for i := 0 to |renderers|
      invariant |rows| == i
      invariant forall k :: 0 <= k < i ==> rows[k] == MeshRendererData(renderers[k], true)
    {
      rows := rows + [MeshRendererData(renderers[i], true)];
    }
  }

  // ---------------------------------------------------------------------
  // Header box and Apply button

  /** `Count(d => d.IsSelected)`. */
  function SelectedCount(rows: seq<MeshRendererData>): (n: nat)
    ensures n <= |rows|
  {
    if |rows| == 0 then 0
    else SelectedCount(rows[..|rows| - 1]) + (if rows[|rows| - 1].isSelected then 1 else 0)
  }

  /** No row is ticked exactly when the count is zero, and all are exactly when it is the length. */
  lemma {:induction false} SelectedCountSpec(rows: seq<MeshRendererData>)
    ensures SelectedCount(rows) == 0 <==> forall i :: 0 <= i < |rows| ==> !rows[i].isSelected
    ensures SelectedCount(rows) == |rows| <==> AllTicked(rows)
  {
    if |rows| > 0 {
      var init := rows[..|rows| - 1];
      SelectedCountSpec(init);
      assert forall i :: 0 <= i < |init| ==> init[i] == rows[i];
    }
  }

  /**
   * UpdateHeaderToggle: cleared for an empty list or no ticked row,
   * ticked when every row is, ticked and mixed otherwise.
   */
  function HeaderFor(rows: seq<MeshRendererData>): (h: HeaderState)
    ensures h == HeaderState(false, false) <==> forall i :: 0 <= i < |rows| ==> !rows[i].isSelected
    ensures h == HeaderState(true, false) <==> |rows| > 0 && AllTicked(rows)
    ensures h == HeaderState(true, true) <==>
      (exists i :: 0 <= i < |rows| && rows[i].isSelected) && (exists j :: 0 <= j < |rows| && !rows[j].isSelected)
    ensures h.value <==> exists i :: 0 <= i < |rows| && rows[i].isSelected
  {
    SelectedCountSpec(rows);
    if |rows| == 0 then HeaderState(false, false)
    else
      var selectedCount := SelectedCount(rows);
      if selectedCount == 0 then HeaderState(false, false)
      else if selectedCount == |rows| then HeaderState(true, false)
      else HeaderState(true, true)
  }

  /** UpdateApplyButtonState: enabled when some row is ticked and the root is live. */
  function ApplyEnabled(rows: seq<MeshRendererData>, rootLive: bool): (r: bool)
    ensures r <==> rootLive && HeaderFor(rows).value
  {
    rootLive && exists i :: 0 <= i < |rows| && rows[i].isSelected
  }

  /** Every row takes the value `v`. */
  method SetAllSelected(rows: seq<MeshRendererData>, v: bool) returns (rows': seq<MeshRendererData>)
    ensures Listed(rows') == Listed(rows)
    ensures forall i :: 0 <= i < |rows'| ==> rows'[i].isSelected == v
  {
    rows' := rows;
    for i := 0 to |rows|
      invariant |rows'| == |rows|
      invariant forall k :: 0 <= k < |rows| ==> rows'[k].renderer == rows[k].renderer
      invariant forall k :: 0 <= k < i ==> rows'[k].isSelected == v
    {
      rows' := rows'[i := rows'[i].(isSelected := v)];
    }
  }

  // ---------------------------------------------------------------------
  // Apply

  /**
   * The writes to one renderer. The Anchor Override (and, on a skinned
   * renderer, the Root Bone) is assigned only when the chosen or the
   * current value is non-null, so either way it ends up equal to the
   * chosen value; a skinned renderer always takes the bounds.
   */
  function AppliedRenderer(r: Renderer, s: ApplySettings): (r': Renderer)
    ensures r'.probeAnchor == s.anchorOverride && r'.sharedMaterials == r.sharedMaterials
    ensures r.kind.SkinnedMeshRendererKind? ==>
      r'.kind == SkinnedMeshRendererKind(r.kind.sharedMesh, s.rootBone, s.bounds)
    ensures !r.kind.SkinnedMeshRendererKind? ==> r'.kind == r.kind
  {
    var anchored := if s.anchorOverride.Some? || r.probeAnchor.Some? then r.(probeAnchor := s.anchorOverride) else r;
    if anchored.kind.SkinnedMeshRendererKind? then
      var withBounds := anchored.(kind := anchored.kind.(localBounds := s.bounds));
      if s.rootBone.Some? || withBounds.kind.rootBone.Some? then withBounds.(kind := withBounds.kind.(rootBone := s.rootBone))
      else withBounds
    else anchored
  }

  /** The object after the writes to its renderer; an object without one is unchanged. */
  function AppliedObject(g: GameObject, s: ApplySettings): (r: GameObject)
    ensures r.(renderer := g.renderer) == g
    ensures r.renderer.Some? <==> g.renderer.Some?
  {
    if g.renderer.Some? then g.(renderer := Some(AppliedRenderer(g.renderer.value, s))) else g
  }

  /** Writing the same settings twice changes nothing more than writing them once. */
  lemma AppliedObjectTwice(g: GameObject, s: ApplySettings)
    ensures AppliedObject(AppliedObject(g, s), s) == AppliedObject(g, s)
  {
    if g.renderer.Some? {
      var r := AppliedRenderer(g.renderer.value, s);
      assert AppliedRenderer(r, s) == r;
    }
  }

  function AnchorWritten(r: Renderer, s: ApplySettings): bool
  {
    s.anchorOverride.Some? || r.probeAnchor.Some?
  }

  function RootBoneWritten(r: Renderer, s: ApplySettings): bool
  {
    r.kind.SkinnedMeshRendererKind? && (s.rootBone.Some? || r.kind.rootBone.Some?)
  }

  /** The scene after the writes to each target in turn; a target without a renderer is skipped. */
  function AppliedScene(scene: seq<GameObject>, targets: seq<ObjectRef>, s: ApplySettings): seq<GameObject>
  {
    if |targets| == 0 then scene
    else
      var before := AppliedScene(scene, targets[..|targets| - 1], s);
      var a := targets[|targets| - 1];
      if HasRenderer(before, a) then SceneWith(before, a, AppliedObject(SceneAt(before, a), s)) else before
  }

  /** The three counters of the loop. */
  function AppliedTally(scene: seq<GameObject>, targets: seq<ObjectRef>, s: ApplySettings): (c: AppliedCounts)
    ensures c.anchorOverride <= |targets| && c.rootBone <= c.bounds <= |targets|
  {
    if |targets| == 0 then AppliedCounts(0, 0, 0)
    else
      var c := AppliedTally(scene, targets[..|targets| - 1], s);
      var before := AppliedScene(scene, targets[..|targets| - 1], s);
      var a := targets[|targets| - 1];
      if HasRenderer(before, a) then
        var r := SceneAt(before, a).renderer.value;
        AppliedCounts(
          c.anchorOverride + (if AnchorWritten(r, s) then 1 else 0),
          c.bounds + (if r.kind.SkinnedMeshRendererKind? then 1 else 0),
          c.rootBone + (if RootBoneWritten(r, s) then 1 else 0))
      else c
  }

  /** The loop of OnApplyButtonClicked over the ticked renderers. */
  method ApplyToRenderers(scene: seq<GameObject>, targets: seq<ObjectRef>, s: ApplySettings)
    returns (newScene: seq<GameObject>, counts: AppliedCounts)
    ensures newScene == AppliedScene(scene, targets, s)
    ensures counts == AppliedTally(scene, targets, s)
  {
    newScene, counts := scene, AppliedCounts(0, 0, 0);
    for k := 0 to |targets|
      invariant newScene == AppliedScene(scene, targets[..k], s)
      invariant counts == AppliedTally(scene, targets[..k], s)
    {
      assert targets[..k + 1][..k] == targets[..k];
      var a := targets[k];
      if InScene(newScene, a) && SceneAt(newScene, a).renderer.Some? {
        var r := SceneAt(newScene, a).renderer.value;
        if s.anchorOverride.Some? || r.probeAnchor.Some? {
          counts := counts.(anchorOverride := counts.anchorOverride + 1);
        }
        if r.kind.SkinnedMeshRendererKind? {
          counts := counts.(bounds := counts.bounds + 1);
          if s.rootBone.Some? || r.kind.rootBone.Some? {
            counts := counts.(rootBone := counts.rootBone + 1);
          }
        }
        newScene := SceneWith(newScene, a, AppliedObject(SceneAt(newScene, a), s));
      }
    }
    assert targets[..|targets|] == targets;
  }

  /**
   * Applying keeps every object in place; a target object takes the
   * writes (once, however often it is listed) and every other object is
   * untouched.
   */
  lemma {:induction false} AppliedSceneAt(scene: seq<GameObject>, targets: seq<ObjectRef>, s: ApplySettings, q: ObjectRef)
    ensures InScene(AppliedScene(scene, targets, s), q) <==> InScene(scene, q)
    ensures InScene(scene, q) ==>
      Own(SceneAt(AppliedScene(scene, targets, s), q)) ==
        if q in targets then AppliedObject(Own(SceneAt(scene, q)), s) else Own(SceneAt(scene, q))
  {
    if |targets| > 0 {
      var init := targets[..|targets| - 1];
      var a := targets[|targets| - 1];
      var before := AppliedScene(scene, init, s);
      assert targets == init + [a];
      AppliedSceneAt(scene, init, s, q);
      if HasRenderer(before, a) {
        var n := AppliedObject(SceneAt(before, a), s);
        SceneWithAt(before, a, n, q);
        if q == a && InScene(scene, q) {
          assert Own(n) == AppliedObject(Own(SceneAt(before, a)), s);
          AppliedObjectTwice(Own(SceneAt(scene, q)), s);
        }
      } else if q == a && InScene(scene, q) {
        assert Own(SceneAt(before, a)).renderer.None?;
      }
    }
  }

  /** The ticked renderers, in list order (`Where(d => d.IsSelected).Select(d => d.Renderer)`). */
  function SelectedRenderers(rows: seq<MeshRendererData>): (r: seq<ObjectRef>)
    ensures |r| == SelectedCount(rows)
  {
    if |rows| == 0 then []
    else
      var last := rows[|rows| - 1];
      SelectedRenderers(rows[..|rows| - 1]) + (if last.isSelected then [last.renderer] else [])
  }

  /** A renderer is a target exactly when some ticked row shows it. */
  lemma {:induction false} SelectedRenderersMember(rows: seq<MeshRendererData>, a: ObjectRef)
    ensures a in SelectedRenderers(rows) <==> exists i :: 0 <= i < |rows| && rows[i].isSelected && rows[i].renderer == a
  {
    if |rows| > 0 {
      var init := rows[..|rows| - 1];
      SelectedRenderersMember(init, a);
      assert forall i :: 0 <= i < |init| ==> init[i] == rows[i];
      if exists i :: 0 <= i < |rows| && rows[i].isSelected && rows[i].renderer == a {
        var i :| 0 <= i < |rows| && rows[i].isSelected && rows[i].renderer == a;
        if i < |init| {
          assert init[i].isSelected && init[i].renderer == a;
        }
      }
    }
  }

  /**
   * What Apply does to the scene: every renderer a ticked row shows ends
   * up with the chosen Anchor Override, and a skinned one with the chosen
   * bounds and Root Bone; its materials and mesh stay. No other object
   * changes.
   */
  lemma ApplyEffect(scene: seq<GameObject>, rows: seq<MeshRendererData>, s: ApplySettings, q: ObjectRef)
    requires InScene(scene, q)
    ensures var after := AppliedScene(scene, SelectedRenderers(rows), s);
      InScene(after, q) &&
      if exists i :: 0 <= i < |rows| && rows[i].isSelected && rows[i].renderer == q then
        SceneAt(after, q).renderer.Some? == SceneAt(scene, q).renderer.Some? &&
        (SceneAt(scene, q).renderer.Some? ==>
          var r := SceneAt(scene, q).renderer.value;
          var r' := SceneAt(after, q).renderer.value;
          r'.probeAnchor == s.anchorOverride && r'.sharedMaterials == r.sharedMaterials &&
          (r.kind.SkinnedMeshRendererKind? ==> r'.kind == SkinnedMeshRendererKind(r.kind.sharedMesh, s.rootBone, s.bounds)) &&
          (!r.kind.SkinnedMeshRendererKind? ==> r'.kind == r.kind))
      else Own(SceneAt(after, q)) == Own(SceneAt(scene, q))
  {
    AppliedSceneAt(scene, SelectedRenderers(rows), s, q);
    SelectedRenderersMember(rows, q);
  }

  // ---------------------------------------------------------------------
  // The window

  class AOBoundsSetterWindow {
    var rootObject: Option<ObjectRef>
    var meshRendererDataList: seq<MeshRendererData>
    var header: HeaderState
    var applyEnabled: bool

    /** A new window: no root, an empty list, the header cleared and Apply disabled. */
    constructor ()
      ensures rootObject.None? && meshRendererDataList == []
      ensures header == HeaderState(false, false) && !applyEnabled
    {
      rootObject := None;
      meshRendererDataList := [];
      header := HeaderState(false, false);
      applyEnabled := false;
    }

    method UpdateHeaderToggle()
      modifies this
      ensures header == HeaderFor(meshRendererDataList)
      ensures rootObject == old(rootObject) && meshRendererDataList == old(meshRendererDataList)
      ensures applyEnabled == old(applyEnabled)
    {
      header := HeaderFor(meshRendererDataList);
    }

    method UpdateApplyButtonState(scene: seq<GameObject>)
      modifies this
      ensures applyEnabled == ApplyEnabled(meshRendererDataList, IsLive(scene, rootObject))
      ensures rootObject == old(rootObject) && meshRendererDataList == old(meshRendererDataList)
      ensures header == old(header)
    {
      applyEnabled := ApplyEnabled(meshRendererDataList, IsLive(scene, rootObject));
    }

    /**
     * RefreshMeshList: the list is rebuilt with one ticked row per
     * renderer under a live root that is not a prefab asset, and the
     * header and Apply button follow it.
     */
    method RefreshMeshList(scene: seq<GameObject>, isPrefabAsset: bool)
      modifies this
      ensures rootObject == old(rootObject)
      ensures Listed(meshRendererDataList) == ExpectedRenderers(scene, rootObject, isPrefabAsset)
      ensures AllTicked(meshRendererDataList)
      ensures header == HeaderFor(meshRendererDataList)
      ensures applyEnabled == ApplyEnabled(meshRendererDataList, IsLive(scene, rootObject))
    {
      meshRendererDataList := [];
      if !IsLive(scene, rootObject) || isPrefabAsset {
        UpdateHeaderToggle();
        UpdateApplyButtonState(scene);
        return;
      }
      var rows := CreateRows(RenderersUnder(scene, rootObject.value));
      meshRendererDataList := rows;
      UpdateHeaderToggle();
      UpdateApplyButtonState(scene);
    }

    /** OnRootObjectChanged: takes the new root and rebuilds the list. */
    method OnRootObjectChanged(scene: seq<GameObject>, newRoot: Option<ObjectRef>, isPrefabAsset: bool)
      modifies this
      ensures rootObject == newRoot
      ensures Listed(meshRendererDataList) == ExpectedRenderers(scene, newRoot, isPrefabAsset)
      ensures AllTicked(meshRendererDataList)
      ensures header == HeaderFor(meshRendererDataList)
      ensures applyEnabled == ApplyEnabled(meshRendererDataList, IsLive(scene, newRoot))
    {
      rootObject := newRoot;
      RefreshMeshList(scene, isPrefabAsset);
    }

    /** The tick box of row `i` changed to `v`. */
    method OnRowToggleChanged(scene: seq<GameObject>, i: nat, v: bool)
      requires i < |meshRendererDataList|
      modifies this
      ensures meshRendererDataList == old(meshRendererDataList)[i := old(meshRendererDataList)[i].(isSelected := v)]
      ensures rootObject == old(rootObject)
      ensures header == HeaderFor(meshRendererDataList)
      ensures applyEnabled == ApplyEnabled(meshRendererDataList, IsLive(scene, rootObject))
    {
      meshRendererDataList := meshRendererDataList[i := meshRendererDataList[i].(isSelected := v)];
      UpdateHeaderToggle();
      UpdateApplyButtonState(scene);
    }

    /**
     * OnHeaderToggleChanged: a click on the mixed box clears every row;
     * otherwise every row takes the new value. Afterwards the box is never
     * mixed.
     */
    method OnHeaderToggleChanged(scene: seq<GameObject>, newValue: bool)
      modifies this
      ensures Listed(meshRendererDataList) == Listed(old(meshRendererDataList))
      ensures forall i :: 0 <= i < |meshRendererDataList| ==>
        meshRendererDataList[i].isSelected == (newValue && !old(header.showMixed))
      ensures rootObject == old(rootObject)
      ensures header == HeaderState(|meshRendererDataList| > 0 && newValue && !old(header.showMixed), false)
      ensures applyEnabled == ApplyEnabled(meshRendererDataList, IsLive(scene, rootObject))
    {
      var v := newValue;
      if header.showMixed {
        v := false;
      }
      var rows := SetAllSelected(meshRendererDataList, v);
      meshRendererDataList := rows;
      UpdateHeaderToggle();
      UpdateApplyButtonState(scene);
    }

    /**
     * OnApplyButtonClicked: with no ticked row nothing changes; otherwise
     * the settings are written into the ticked renderers and the list is
     * rebuilt from the new scene.
     */
    method OnApplyButtonClicked(scene: seq<GameObject>, s: ApplySettings, isPrefabAsset: bool)
      returns (newScene: seq<GameObject>, counts: AppliedCounts)
      modifies this
      ensures var targets := SelectedRenderers(old(meshRendererDataList));
        if |targets| == 0 then
          newScene == scene && counts == AppliedCounts(0, 0, 0) &&
          meshRendererDataList == old(meshRendererDataList) && header == old(header) &&
          applyEnabled == old(applyEnabled)
        else
          newScene == AppliedScene(scene, targets, s) && counts == AppliedTally(scene, targets, s) &&
          Listed(meshRendererDataList) == ExpectedRenderers(newScene, rootObject, isPrefabAsset) &&
          AllTicked(meshRendererDataList) && header == HeaderFor(meshRendererDataList) &&
          applyEnabled == ApplyEnabled(meshRendererDataList, IsLive(newScene, rootObject))
      ensures rootObject == old(rootObject)
    {
      var selectedRenderers := SelectedRenderers(meshRendererDataList);
      if |selectedRenderers| == 0 {
        return scene, AppliedCounts(0, 0, 0);
      }
      newScene, counts := ApplyToRenderers(scene, selectedRenderers, s);
      RefreshMeshList(newScene, isPrefabAsset);
    }
  }
}
