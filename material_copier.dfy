/**
 * Copy Materials / Paste Materials (MaterialCopier).
 *
 * Copying walks each selected subtree in pre-order and appends, to a
 * static buffer that it first empties, one record per object with a
 * MeshRenderer or SkinnedMeshRenderer: the object's name, its material
 * slots, its depth below the selected object and its path from it.
 * Pasting walks each selected subtree the same way; for every object it
 * looks for a record with the same name (exactly, else ignoring case),
 * preferring the record at the same depth, else the closest depth, and
 * writes the record's materials into the renderer slot by slot.
 *
 * Scene objects are values here, so a paste returns the rewritten subtree
 * instead of changing objects in place.
 */
module MaterialCopier {
  import opened Collections
  import opened Text
  import opened Scene
  import ObjectMatcher

  /** One copied renderer. */
  datatype MaterialData = MaterialData(
    objectName: string,
    materials: seq<Option<MaterialId>>,
    hierarchyDepth: int,
    relativePath: string)

  /** The MaterialData constructor: a copy of the slots, or no slots for a null array. */
  function NewMaterialData(name: string, mats: Option<seq<Option<MaterialId>>>, depth: int, path: string): (d: MaterialData)
    ensures d.objectName == name && d.hierarchyDepth == depth && d.relativePath == path
    ensures mats.None? ==> d.materials == []
    ensures mats.Some? ==> d.materials == mats.value
  {
    MaterialData(name, if mats.None? then [] else mats.value, depth, path)
  }

  /** The object has a MeshRenderer or a SkinnedMeshRenderer, the two kinds the tool handles. */
  predicate HasMeshRenderer(g: GameObject)
  {
    g.renderer.Some? && !g.renderer.value.kind.OtherRendererKind?
  }

  // ---------------------------------------------------------------------
  // GetRelativePath

  /**
   * GetRelativePath: "" for the selected object itself, otherwise the
   * object's name preceded by the name of each ancestor below the
   * selected object and a '/'.
   */
  method GetRelativePath(root: GameObject, p: Pos) returns (path: string)
    requires ValidPos(root, p)
    ensures path == ObjectMatcher.RelativePath(root, p)
    ensures p == [] ==> path == ""
  {
    if p == [] {
      return "";
    }
    NamesBelowIndex(root, p, |p| - 1);
    assert p[..|p|] == p;
    path := At(root, p).name;
    var k := |p| - 1;
    while k > 0
      invariant 0 <= k < |p|
      invariant path == Join(NamesBelow(root, p)[k..], '/')
    {
      NamesBelowIndex(root, p, k - 1);
      JoinCons(At(root, p[..k]).name, NamesBelow(root, p)[k..], '/');
      assert NamesBelow(root, p)[k - 1..] == [NamesBelow(root, p)[k - 1]] + NamesBelow(root, p)[k..];
      path := At(root, p[..k]).name + "/" + path;
      k := k - 1;
    }
  }

  // ---------------------------------------------------------------------
  // Collection

  /** The record copying makes for the object at `p` below the selected `root`. */
  function DataAt(root: GameObject, p: Pos): MaterialData
    requires ValidPos(root, p) && HasMeshRenderer(At(root, p))
  {
    NewMaterialData(At(root, p).name, Some(At(root, p).renderer.value.sharedMaterials), |p|, ObjectMatcher.RelativePath(root, p))
  }

  /** The records CollectMaterialsFromHierarchy appends for the subtree at `p`. */
  function Collected(root: GameObject, p: Pos): seq<MaterialData>
    requires ValidPos(root, p)
    decreases At(root, p), 1
  {
    (if HasMeshRenderer(At(root, p)) then [DataAt(root, p)] else []) + ChildrenCollected(root, p, |At(root, p).children|)
  }

  /** The records for the subtrees of the first `i` children. */
  function ChildrenCollected(root: GameObject, p: Pos, i: nat): seq<MaterialData>
    requires ValidPos(root, p) && i <= |At(root, p).children|
    decreases At(root, p), 0, i
  {
    if i == 0 then []
    else
      AtSnoc(root, p, i - 1);
      ChildrenCollected(root, p, i - 1) + Collected(root, p + [i - 1])
  }

  /** The record, if any, for the object at position `q`. */
  function EntryAt(root: GameObject, q: Pos): seq<MaterialData>
  {
    if ValidPos(root, q) && HasMeshRenderer(At(root, q)) then [DataAt(root, q)] else []
  }

  /** The records for the positions `ps`, in the order of `ps`. */
  function EntriesAt(root: GameObject, ps: seq<Pos>): seq<MaterialData>
  {
    if |ps| == 0 then [] else EntryAt(root, ps[0]) + EntriesAt(root, ps[1..])
  }

  /** The positions `ps` of a subtree, seen from the root of the hierarchy it hangs at `p` in. */
  function Under(p: Pos, ps: seq<Pos>): seq<Pos>
  {
    seq(|ps|, k requires 0 <= k < |ps| => p + ps[k])
  }

  lemma UnderConcat(p: Pos, a: seq<Pos>, b: seq<Pos>)
    ensures Under(p, a + b) == Under(p, a) + Under(p, b)
  {
  }

  lemma UnderPrefixed(p: Pos, i: nat, ps: seq<Pos>)
    ensures Under(p, Prefixed(i, ps)) == Under(p + [i], ps)
  {
    forall k | 0 <= k < |ps|
      ensures Under(p, Prefixed(i, ps))[k] == Under(p + [i], ps)[k]
    {
      assert p + ([i] + ps[k]) == (p + [i]) + ps[k];
    }
  }

  lemma {:induction false} EntriesAtConcat(root: GameObject, a: seq<Pos>, b: seq<Pos>)
    ensures EntriesAt(root, a + b) == EntriesAt(root, a) + EntriesAt(root, b)
  {
    if |a| == 0 {
      assert a + b == b;
    } else {
      assert (a + b)[0] == a[0];
      assert (a + b)[1..] == a[1..] + b;
      EntriesAtConcat(root, a[1..], b);
    }
  }

  lemma {:induction false} CollectedUnder(root: GameObject, p: Pos)
    requires ValidPos(root, p)
    ensures Collected(root, p) == EntriesAt(root, Under(p, PreOrder(At(root, p))))
    decreases At(root, p), 1
  {
    var n := At(root, p);
    UnderConcat(p, [[]], ChildrenPreOrder(n, 0));
    assert p + [] == p;
    assert Under(p, [[]]) == [p];
    EntriesAtConcat(root, [p], Under(p, ChildrenPreOrder(n, 0)));
    assert EntriesAt(root, [p]) == EntryAt(root, p) + EntriesAt(root, []);
    ChildrenCollectedUnder(root, p, |n.children|);
    var cc := ChildrenCollected(root, p, |n.children|);
    assert cc + EntriesAt(root, Under(p, [])) == cc;
  }

  /** The records of the first `i` children, followed by those of the rest in pre-order, are those of all children. */
  lemma {:induction false} ChildrenCollectedUnder(root: GameObject, p: Pos, i: nat)
    requires ValidPos(root, p) && i <= |At(root, p).children|
    ensures ChildrenCollected(root, p, i) + EntriesAt(root, Under(p, ChildrenPreOrder(At(root, p), i)))
      == EntriesAt(root, Under(p, ChildrenPreOrder(At(root, p), 0)))
    decreases At(root, p), 0, i
  {
    if i > 0 {
      var n := At(root, p);
      var j: nat := i - 1;
      ChildUnder(root, p, j);
      ChildrenCollectedUnder(root, p, j);
      var before := ChildrenCollected(root, p, j);
      var here := Collected(root, p + [j]);
      var rest := EntriesAt(root, Under(p, ChildrenPreOrder(n, i)));
      ConcatAssoc(before, here, rest);
    }
  }

  /** In pre-order, the records of child `j` come before those of the children after it. */
  lemma {:induction false} ChildUnder(root: GameObject, p: Pos, j: nat)
    requires ValidPos(root, p) && j < |At(root, p).children|
    ensures ValidPos(root, p + [j])
    ensures EntriesAt(root, Under(p, ChildrenPreOrder(At(root, p), j)))
      == Collected(root, p + [j]) + EntriesAt(root, Under(p, ChildrenPreOrder(At(root, p), j + 1)))
    decreases At(root, p), 0, j
  {
    var n := At(root, p);
    AtSnoc(root, p, j);
    var c := n.children[j];
    UnderConcat(p, Prefixed(j, PreOrder(c)), ChildrenPreOrder(n, j + 1));
    UnderPrefixed(p, j, PreOrder(c));
    EntriesAtConcat(root, Under(p + [j], PreOrder(c)), Under(p, ChildrenPreOrder(n, j + 1)));
    CollectedUnder(root, p + [j]);
  }

  /**
   * Copying a selected object records exactly its objects with a mesh
   * renderer, one record each, in pre-order.
   */
  lemma CollectedPreOrder(root: GameObject)
    ensures Collected(root, []) == EntriesAt(root, PreOrder(root))
  {
    CollectedUnder(root, []);
    forall k | 0 <= k < |PreOrder(root)|
      ensures Under([], PreOrder(root))[k] == PreOrder(root)[k]
    {
      assert [] + PreOrder(root)[k] == PreOrder(root)[k];
    }
    assert Under([], PreOrder(root)) == PreOrder(root);
  }

  lemma {:induction false} EntriesAtMember(root: GameObject, ps: seq<Pos>, d: MaterialData)
    requires d in EntriesAt(root, ps)
    ensures exists q :: q in ps && ValidPos(root, q) && HasMeshRenderer(At(root, q)) && d == DataAt(root, q)
  {
    if d in EntryAt(root, ps[0]) {
      assert ps[0] in ps;
    } else {
      EntriesAtMember(root, ps[1..], d);
      var q :| q in ps[1..] && ValidPos(root, q) && HasMeshRenderer(At(root, q)) && d == DataAt(root, q);
      assert q in ps;
    }
  }

  lemma {:induction false} EntriesAtComplete(root: GameObject, ps: seq<Pos>, q: Pos)
    requires q in ps && ValidPos(root, q) && HasMeshRenderer(At(root, q))
    ensures DataAt(root, q) in EntriesAt(root, ps)
  {
    if ps[0] != q {
      EntriesAtComplete(root, ps[1..], q);
    }
  }

  /** Every record copied from a selected object is that of one of its objects with a mesh renderer. */
  lemma CollectedMember(root: GameObject, d: MaterialData)
    requires d in Collected(root, [])
    ensures exists q :: ValidPos(root, q) && HasMeshRenderer(At(root, q)) && d == DataAt(root, q)
  {
    CollectedPreOrder(root);
    EntriesAtMember(root, PreOrder(root), d);
  }

  /** Every object with a mesh renderer has its record, at its depth below the selected object. */
  lemma CollectedComplete(root: GameObject, q: Pos)
    requires ValidPos(root, q) && HasMeshRenderer(At(root, q))
    ensures DataAt(root, q) in Collected(root, [])
    ensures DataAt(root, q).hierarchyDepth == |q|
  {
    CollectedPreOrder(root);
    PreOrderValid(root, q);
    EntriesAtComplete(root, PreOrder(root), q);
  }

  /** The records a copy of the selection leaves in the buffer; a null entry contributes none. */
  function CopiedFrom(scene: seq<GameObject>, selection: seq<ObjectRef>): seq<MaterialData>
    decreases |selection|
  {
    if |selection| == 0 then []
    else
      var last := selection[|selection| - 1];
      CopiedFrom(scene, selection[..|selection| - 1])
        + (if InScene(scene, last) then Collected(SceneAt(scene, last), []) else [])
  }

  /** The Copy Materials menu item is enabled when something is selected. */
  predicate ValidateCopyMaterials(selection: seq<ObjectRef>)
  {
    |selection| > 0
  }

  // ---------------------------------------------------------------------
  // Matching

  /** How far a record's depth lies from the target depth. */
  function Gap(d: MaterialData, targetDepth: int): nat
  {
    ObjectMatcher.Abs(d.hierarchyDepth - targetDepth)
  }

  /** The first candidate at the smallest distance from the target depth (a stable `OrderBy` then `First`). */
  function ClosestIndex(candidates: seq<MaterialData>, targetDepth: int): (k: nat)
    requires |candidates| > 0
    ensures k < |candidates|
    ensures forall j :: 0 <= j < |candidates| ==> Gap(candidates[k], targetDepth) <= Gap(candidates[j], targetDepth)
    ensures forall j :: 0 <= j < k ==> Gap(candidates[j], targetDepth) > Gap(candidates[k], targetDepth)
  {
    if |candidates| == 1 then 0
    else
      var k := ClosestIndex(candidates[..|candidates| - 1], targetDepth);
      if Gap(candidates[|candidates| - 1], targetDepth) < Gap(candidates[k], targetDepth) then |candidates| - 1 else k
  }

  /**
   * GetBestDepthMatch: null for no candidates; otherwise the first
   * candidate at the target depth, or, when there is none, the first one
   * at the smallest distance from it.
   */
  function GetBestDepthMatch(candidates: seq<MaterialData>, targetDepth: int): (r: Option<MaterialData>)
    ensures r.Some? <==> |candidates| > 0
    ensures r.Some? ==> r.value in candidates
    ensures (exists i :: 0 <= i < |candidates| && candidates[i].hierarchyDepth == targetDepth) ==>
      exists k :: 0 <= k < |candidates| && r == Some(candidates[k]) && candidates[k].hierarchyDepth == targetDepth &&
        forall j :: 0 <= j < k ==> candidates[j].hierarchyDepth != targetDepth
    ensures r.Some? ==> forall j :: 0 <= j < |candidates| ==> Gap(r.value, targetDepth) <= Gap(candidates[j], targetDepth)
    ensures r.Some? && (forall i :: 0 <= i < |candidates| ==> candidates[i].hierarchyDepth != targetDepth) ==>
      exists k :: 0 <= k < |candidates| && r == Some(candidates[k]) &&
        forall j :: 0 <= j < k ==> Gap(candidates[j], targetDepth) > Gap(candidates[k], targetDepth)
  {
    if |candidates| == 0 then None
    else
      match FirstIndex(candidates, (d: MaterialData) => d.hierarchyDepth == targetDepth)
      case Some(k) => Some(candidates[k])
      case None => Some(candidates[ClosestIndex(candidates, targetDepth)])
  }

  /**
   * FindMatchingMaterialData: among the records with exactly the target's
   * name if there are any, otherwise among those equal to it ignoring
   * case, the best by depth; null when neither kind exists.
   */
  function FindMatchingMaterialData(copied: seq<MaterialData>, targetName: string, depth: int): (r: Option<MaterialData>)
    ensures r.Some? ==> r.value in copied && EqualsIgnoreCase(r.value.objectName, targetName)
    ensures r.None? <==> forall i :: 0 <= i < |copied| ==> !EqualsIgnoreCase(copied[i].objectName, targetName)
    ensures (exists i :: 0 <= i < |copied| && copied[i].objectName == targetName) ==>
      r.Some? && r.value.objectName == targetName
    ensures (exists i :: 0 <= i < |copied| && copied[i].objectName == targetName && copied[i].hierarchyDepth == depth) ==>
      r.Some? && r.value.objectName == targetName && r.value.hierarchyDepth == depth
  {
    var exact := Filter(copied, (d: MaterialData) => d.objectName == targetName);
    if |exact| > 0 then GetBestDepthMatch(exact, depth)
    else
      var ignoringCase := Filter(copied, (d: MaterialData) => EqualsIgnoreCase(d.objectName, targetName));
      if |ignoringCase| > 0 then GetBestDepthMatch(ignoringCase, depth) else None
  }

  // ---------------------------------------------------------------------
  // Pasting

  /**
   * The slots after a paste: as many as the renderer had, the copied
   * material in each slot the record has, the current one in the rest.
   */
  function PastedSlots(current: seq<Option<MaterialId>>, copied: seq<Option<MaterialId>>): (r: seq<Option<MaterialId>>)
    ensures |r| == |current|
    ensures forall i :: 0 <= i < |current| ==> r[i] == if i < |copied| then copied[i] else current[i]
  {
    if |copied| >= |current| then copied[..|current|] else copied + current[|copied|..]
  }

  /** The slot-filling loop of ApplyMaterialsToObject, over a new array of the renderer's length. */
  method PasteSlots(current: seq<Option<MaterialId>>, copied: seq<Option<MaterialId>>) returns (newMaterials: seq<Option<MaterialId>>)
    ensures newMaterials == PastedSlots(current, copied)
  {
    var a := new Option<MaterialId>[|current|];
    for i := 0 to a.Length
      invariant forall j :: 0 <= j < i ==> a[j] == if j < |copied| then copied[j] else current[j]
    {
      a[i] := if i < |copied| then copied[i] else current[i];
    }
    newMaterials := a[..];
  }

  /** The object after a record is applied to it: only its mesh renderer's slots change. */
  function AppliedTo(g: GameObject, data: MaterialData): (r: GameObject)
    ensures r.(renderer := g.renderer) == g
    ensures !HasMeshRenderer(g) ==> r == g
    ensures HasMeshRenderer(g) ==> HasMeshRenderer(r)
    ensures HasMeshRenderer(g) ==> r.renderer.value.(sharedMaterials := g.renderer.value.sharedMaterials) == g.renderer.value
    ensures HasMeshRenderer(g) ==> r.renderer.value.sharedMaterials == PastedSlots(g.renderer.value.sharedMaterials, data.materials)
  {
    if HasMeshRenderer(g)
    then g.(renderer := Some(g.renderer.value.(sharedMaterials := PastedSlots(g.renderer.value.sharedMaterials, data.materials))))
    else g
  }

  /** ApplyMaterialsToObject: rewrites the mesh renderer's slots; the count of renderers rewritten. */
  method ApplyMaterialsToObject(obj: GameObject, materialData: MaterialData) returns (r: GameObject, applied: nat)
    ensures r == AppliedTo(obj, materialData)
    ensures applied == if HasMeshRenderer(obj) then 1 else 0
  {
    r := obj;
    applied := 0;
    if HasMeshRenderer(obj) {
      var renderer := obj.renderer.value;
      var newMaterials := PasteSlots(renderer.sharedMaterials, materialData.materials);
      r := obj.(renderer := Some(renderer.(sharedMaterials := newMaterials)));
      applied := applied + 1;
    }
  }

  /** One object after the paste step for it at `depth`. */
  function PastedNode(g: GameObject, copied: seq<MaterialData>, depth: nat): GameObject
  {
    match FindMatchingMaterialData(copied, g.name, depth)
    case None => g
    case Some(d) => AppliedTo(g, d)
  }

  /** The renderers rewritten for the object itself. */
  function PastedHere(g: GameObject, copied: seq<MaterialData>, depth: nat): nat
  {
    if FindMatchingMaterialData(copied, g.name, depth).Some? && HasMeshRenderer(g) then 1 else 0
  }

  /** The paste step as a function of an object and its depth. */
  function PasteStep(copied: seq<MaterialData>): (GameObject, nat) -> GameObject
  {
    (g: GameObject, depth: nat) => PastedNode(g, copied, depth)
  }

  /** The count of the paste step as a function of an object and its depth. */
  function PasteCounter(copied: seq<MaterialData>): (GameObject, nat) -> nat
  {
    (g: GameObject, depth: nat) => PastedHere(g, copied, depth)
  }

  /** The subtree `t`, at `depth` below the selected object, after ApplyMaterialsToHierarchy. */
  function Pasted(t: GameObject, copied: seq<MaterialData>, depth: nat): GameObject
  {
    MapTree(t, PasteStep(copied), depth)
  }

  /** The renderers ApplyMaterialsToHierarchy rewrites in the subtree. */
  function PastedCount(t: GameObject, copied: seq<MaterialData>, depth: nat): nat
  {
    CountTree(t, PasteCounter(copied), depth)
  }

  // A walk that treats every object of a subtree alike, given its depth.

  /** `t` with `step` applied to each object, `depth` being the depth of `t` itself. */
  function MapTree(t: GameObject, step: (GameObject, nat) -> GameObject, depth: nat): GameObject
    decreases t, 1
  {
    step(t, depth).(children := MapChildren(t, step, depth, |t.children|))
  }

  /** The mapped subtrees of the first `i` children. */
  function MapChildren(t: GameObject, step: (GameObject, nat) -> GameObject, depth: nat, i: nat): (r: seq<GameObject>)
    requires i <= |t.children|
    ensures |r| == i
    decreases t, 0, i
  {
    if i == 0 then []
    else MapChildren(t, step, depth, i - 1) + [MapTree(t.children[i - 1], step, depth + 1)]
  }

  lemma {:induction false} MapChild(t: GameObject, step: (GameObject, nat) -> GameObject, depth: nat, i: nat, k: nat)
    requires k < i <= |t.children|
    ensures MapChildren(t, step, depth, i)[k] == MapTree(t.children[k], step, depth + 1)
    decreases i
  {
    if k < i - 1 {
      MapChild(t, step, depth, i - 1, k);
    }
  }

  /** The sum of `here` over the objects of `t`, `depth` being the depth of `t` itself. */
  function CountTree(t: GameObject, here: (GameObject, nat) -> nat, depth: nat): nat
    decreases t, 1
  {
    here(t, depth) + CountChildren(t, here, depth, |t.children|)
  }

  /** The sum of `here` over the subtrees of the first `i` children. */
  function CountChildren(t: GameObject, here: (GameObject, nat) -> nat, depth: nat, i: nat): nat
    requires i <= |t.children|
    decreases t, 0, i
  {
    if i == 0 then 0
    else CountChildren(t, here, depth, i - 1) + CountTree(t.children[i - 1], here, depth + 1)
  }

  /** The first half of ApplyMaterialsToHierarchy: the record found for the object itself, applied to it. */
  method PasteObject(t: GameObject, copied: seq<MaterialData>, depth: nat) returns (node: GameObject, applied: nat)
    ensures node == PastedNode(t, copied, depth)
    ensures applied == PastedHere(t, copied, depth)
  {
    node := t;
    applied := 0;
    var matchingData := FindMatchingMaterialData(copied, t.name, depth);
    if matchingData.Some? {
      node, applied := ApplyMaterialsToObject(t, matchingData.value);
    }
  }

  /** ApplyMaterialsToHierarchy: the object's own paste step, then each child's subtree in order. */
  method ApplyMaterialsToHierarchy(t: GameObject, copied: seq<MaterialData>, depth: nat) returns (result: GameObject, applied: nat)
    ensures result == Pasted(t, copied, depth)
    ensures applied == PastedCount(t, copied, depth)
    decreases t, 1
  {
    var node, own := PasteObject(t, copied, depth);
    var children, below := PasteChildren(t, copied, depth);
    result := node.(children := children);
    applied := own + below;
  }

  /** The loop of ApplyMaterialsToHierarchy over the children of `t`, one level deeper. */
  method PasteChildren(t: GameObject, copied: seq<MaterialData>, depth: nat) returns (children: seq<GameObject>, applied: nat)
    ensures children == MapChildren(t, PasteStep(copied), depth, |t.children|)
    ensures applied == CountChildren(t, PasteCounter(copied), depth, |t.children|)
    decreases t, 0
  {
    children := [];
    applied := 0;
    for i := 0 to |t.children|
      invariant children == MapChildren(t, PasteStep(copied), depth, i)
      invariant applied == CountChildren(t, PasteCounter(copied), depth, i)
    {
      var child, n := ApplyMaterialsToHierarchy(t.children[i], copied, depth + 1);
      children := children + [child];
      applied := applied + n;
    }
  }

  /** The open scene after pasting into each selected object in turn; a null entry is skipped. */
  function PastedScene(scene: seq<GameObject>, selection: seq<ObjectRef>, copied: seq<MaterialData>): seq<GameObject>
    decreases |selection|
  {
    if |selection| == 0 then scene
    else
      var before := PastedScene(scene, selection[..|selection| - 1], copied);
      var a := selection[|selection| - 1];
      if InScene(before, a) then WithNode(SceneRoot(before), a, Pasted(SceneAt(before, a), copied, 0)).children
      else before
  }

  /** The renderers rewritten over the whole selection. */
  function PastedSceneCount(scene: seq<GameObject>, selection: seq<ObjectRef>, copied: seq<MaterialData>): nat
    decreases |selection|
  {
    if |selection| == 0 then 0
    else
      var before := PastedScene(scene, selection[..|selection| - 1], copied);
      var a := selection[|selection| - 1];
      PastedSceneCount(scene, selection[..|selection| - 1], copied)
        + (if InScene(before, a) then PastedCount(SceneAt(before, a), copied, 0) else 0)
  }

  // ---------------------------------------------------------------------
  // The copy buffer

  /** The static `copiedMaterials` list and the two menu commands that use it. */
  class MaterialClipboard {
    var copiedMaterials: seq<MaterialData>

    constructor ()
      ensures copiedMaterials == []
    {
      copiedMaterials := [];
    }

    /** The Paste Materials menu item is enabled when something is selected and the buffer is not empty. */
    predicate ValidatePasteMaterials(selection: seq<ObjectRef>)
      reads this
    {
      |selection| > 0 && |copiedMaterials| > 0
    }

    /** CollectMaterialsFromHierarchy: appends the records of the subtree at `p`; how many. */
    method CollectMaterialsFromHierarchy(root: GameObject, p: Pos) returns (collected: nat)
      requires ValidPos(root, p)
      modifies this
      ensures copiedMaterials == old(copiedMaterials) + Collected(root, p)
      ensures collected == |Collected(root, p)|
      decreases At(root, p)
    {
      var obj := At(root, p);
      collected := 0;
      if HasMeshRenderer(obj) {
        var relativePath := GetRelativePath(root, p);
        copiedMaterials := copiedMaterials + [NewMaterialData(obj.name, Some(obj.renderer.value.sharedMaterials), |p|, relativePath)];
        collected := collected + 1;
      }
      ghost var start := copiedMaterials;
      ghost var own := collected;
      for i := 0 to |obj.children|
        invariant copiedMaterials == start + ChildrenCollected(root, p, i)
        invariant collected == own + |ChildrenCollected(root, p, i)|
      {
        AtSnoc(root, p, i);
        var n := CollectMaterialsFromHierarchy(root, p + [i]);
        ConcatAssoc(start, ChildrenCollected(root, p, i), Collected(root, p + [i]));
        collected := collected + n;
      }
    }

    /**
     * CopyMaterials: with nothing selected the buffer is kept; otherwise it
     * is emptied and refilled from every selected object.
     */
    method CopyMaterials(scene: seq<GameObject>, selection: seq<ObjectRef>) returns (totalCopied: nat)
      modifies this
      ensures !ValidateCopyMaterials(selection) ==> copiedMaterials == old(copiedMaterials) && totalCopied == 0
      ensures ValidateCopyMaterials(selection) ==> copiedMaterials == CopiedFrom(scene, selection)
      ensures totalCopied == if ValidateCopyMaterials(selection) then |copiedMaterials| else 0
    {
      if |selection| == 0 {
        return 0;
      }
      copiedMaterials := [];
      totalCopied := 0;
      for k := 0 to |selection|
        invariant copiedMaterials == CopiedFrom(scene, selection[..k])
        invariant totalCopied == |copiedMaterials|
      {
        assert selection[..k + 1][..k] == selection[..k];
        if InScene(scene, selection[k]) {
          var n := CollectMaterialsFromHierarchy(SceneAt(scene, selection[k]), []);
          totalCopied := totalCopied + n;
        }
      }
      assert selection[..|selection|] == selection;
    }

    /**
     * PasteMaterials: with nothing selected or an empty buffer the scene is
     * untouched; otherwise each selected object's subtree is pasted into.
     */
    method PasteMaterials(scene: seq<GameObject>, selection: seq<ObjectRef>) returns (newScene: seq<GameObject>, totalPasted: nat)
      ensures !ValidatePasteMaterials(selection) ==> newScene == scene && totalPasted == 0
      ensures ValidatePasteMaterials(selection) ==>
        newScene == PastedScene(scene, selection, copiedMaterials) &&
        totalPasted == PastedSceneCount(scene, selection, copiedMaterials)
    {
      if |selection| == 0 || |copiedMaterials| == 0 {
        return scene, 0;
      }
      newScene := scene;
      totalPasted := 0;
      for k := 0 to |selection|
        invariant newScene == PastedScene(scene, selection[..k], copiedMaterials)
        invariant totalPasted == PastedSceneCount(scene, selection[..k], copiedMaterials)
      {
        assert selection[..k + 1][..k] == selection[..k];
        var a := selection[k];
        if InScene(newScene, a) {
          var sub, n := ApplyMaterialsToHierarchy(SceneAt(newScene, a), copiedMaterials, 0);
          newScene := WithNode(SceneRoot(newScene), a, sub).children;
          totalPasted := totalPasted + n;
        }
      }
      assert selection[..|selection|] == selection;
    }
  }

  // ---------------------------------------------------------------------
  // Properties of a paste

  /**
   * The walk treats a subtree object by object: below every position of
   * the original lies, at the same position, the mapped subtree, its top
   * object at its own depth.
   */
  lemma {:induction false} MapTreeAt(t: GameObject, step: (GameObject, nat) -> GameObject, depth: nat, p: Pos)
    requires ValidPos(t, p)
    ensures ValidPos(MapTree(t, step, depth), p)
    ensures At(MapTree(t, step, depth), p) == MapTree(At(t, p), step, depth + |p|)
    decreases |p|
  {
    if |p| > 0 {
      var q := p[..|p| - 1];
      var i := p[|p| - 1];
      assert p == q + [i];
      ValidPrefix(t, p, |p| - 1);
      MapTreeAt(t, step, depth, q);
      var r := MapTree(t, step, depth);
      AtSnoc(t, q, i);
      AtSnoc(r, q, i);
      var n := At(t, q);
      assert At(r, q).children == MapChildren(n, step, depth + |q|, |n.children|);
      MapChild(n, step, depth + |q|, |n.children|, i);
      assert depth + |q| + 1 == depth + |p|;
    }
  }

  /** Each object of `t` is left alone by `step` at its depth. */
  ghost predicate Fixed(t: GameObject, step: (GameObject, nat) -> GameObject, depth: nat)
    decreases t
  {
    step(t, depth) == t &&
    forall i :: 0 <= i < |t.children| ==> Fixed(t.children[i], step, depth + 1)
  }

  /** A subtree every object of which the step leaves alone is left alone. */
  lemma {:induction false} MapTreeFixed(t: GameObject, step: (GameObject, nat) -> GameObject, depth: nat)
    requires Fixed(t, step, depth)
    ensures MapTree(t, step, depth) == t
    decreases t
  {
    forall i | 0 <= i < |t.children|
      ensures MapChildren(t, step, depth, |t.children|)[i] == t.children[i]
    {
      MapChild(t, step, depth, |t.children|, i);
      MapTreeFixed(t.children[i], step, depth + 1);
    }
    assert MapTree(t, step, depth).children == t.children;
  }

  /**
   * Pasting rewrites a subtree object by object: below any position of
   * the result lies the pasted subtree of the original, at its depth.
   */
  lemma PastedAt(t: GameObject, copied: seq<MaterialData>, depth: nat, p: Pos)
    requires ValidPos(t, p)
    ensures ValidPos(Pasted(t, copied, depth), p)
    ensures At(Pasted(t, copied, depth), p) == Pasted(At(t, p), copied, depth + |p|)
  {
    MapTreeAt(t, PasteStep(copied), depth, p);
  }

  /** The top object of a pasted subtree is that object after its own paste step; its children stay as many. */
  lemma PastedTop(g: GameObject, copied: seq<MaterialData>, depth: nat)
    ensures Own(Pasted(g, copied, depth)) == Own(PastedNode(g, copied, depth))
    ensures |Pasted(g, copied, depth).children| == |g.children|
  {
  }

  /** An empty buffer matches no object: the subtree is left alone and no renderer is counted. */
  lemma PasteNothing(t: GameObject, depth: nat)
    ensures Pasted(t, [], depth) == t
    ensures PastedCount(t, [], depth) == 0
  {
    FixedByNothing(t, depth);
    MapTreeFixed(t, PasteStep([]), depth);
    CountNothing(t, depth);
  }

  lemma {:induction false} FixedByNothing(t: GameObject, depth: nat)
    ensures Fixed(t, PasteStep([]), depth)
    decreases t
  {
    assert PasteStep([])(t, depth) == t;
    forall i | 0 <= i < |t.children|
      ensures Fixed(t.children[i], PasteStep([]), depth + 1)
    {
      FixedByNothing(t.children[i], depth + 1);
    }
  }

  lemma {:induction false} CountNothing(t: GameObject, depth: nat)
    ensures CountTree(t, PasteCounter([]), depth) == 0
    decreases t, 1
  {
    assert PasteCounter([])(t, depth) == 0;
    CountChildrenNothing(t, depth, |t.children|);
  }

  lemma {:induction false} CountChildrenNothing(t: GameObject, depth: nat, i: nat)
    requires i <= |t.children|
    ensures CountChildren(t, PasteCounter([]), depth, i) == 0
    decreases t, 0, i
  {
    if i > 0 {
      CountNothing(t.children[i - 1], depth + 1);
      CountChildrenNothing(t, depth, i - 1);
    }
  }

  /** No two objects with a mesh renderer share both their name and their depth. */
  ghost predicate DistinctRenderers(t: GameObject)
  {
    forall p: Pos, q: Pos ::
      (ValidPos(t, p) && ValidPos(t, q) && HasMeshRenderer(At(t, p)) && HasMeshRenderer(At(t, q)) &&
       At(t, p).name == At(t, q).name && |p| == |q|) ==> p == q
  }

  /** A record with exactly the target's name and depth makes the match one with that name and depth. */
  lemma ExactRecordMatched(copied: seq<MaterialData>, d: MaterialData)
    requires d in copied
    ensures FindMatchingMaterialData(copied, d.objectName, d.hierarchyDepth).Some?
    ensures FindMatchingMaterialData(copied, d.objectName, d.hierarchyDepth).value in copied
    ensures FindMatchingMaterialData(copied, d.objectName, d.hierarchyDepth).value.objectName == d.objectName
    ensures FindMatchingMaterialData(copied, d.objectName, d.hierarchyDepth).value.hierarchyDepth == d.hierarchyDepth
  {
    var i :| 0 <= i < |copied| && copied[i] == d;
    assert copied[i].objectName == d.objectName && copied[i].hierarchyDepth == d.hierarchyDepth;
  }

  /** The paste step finds, for an object of the copied subtree, that object's own record. */
  lemma OwnRecordFound(t: GameObject, q: Pos)
    requires DistinctRenderers(t)
    requires ValidPos(t, q) && HasMeshRenderer(At(t, q))
    ensures FindMatchingMaterialData(Collected(t, []), At(t, q).name, |q|) == Some(DataAt(t, q))
  {
    var copied := Collected(t, []);
    var d := DataAt(t, q);
    CollectedComplete(t, q);
    ExactRecordMatched(copied, d);
    var r := FindMatchingMaterialData(copied, d.objectName, d.hierarchyDepth).value;
    CollectedMember(t, r);
    var q' :| ValidPos(t, q') && HasMeshRenderer(At(t, q')) && r == DataAt(t, q');
    assert q' == q;
  }

  /** Each object of the copied subtree, given its own record back, is left as it was. */
  lemma OwnRecordKept(t: GameObject, p: Pos)
    requires DistinctRenderers(t) && ValidPos(t, p)
    ensures PastedNode(At(t, p), Collected(t, []), |p|) == At(t, p)
  {
    var g := At(t, p);
    if HasMeshRenderer(g) {
      OwnRecordFound(t, p);
      var m := g.renderer.value.sharedMaterials;
      assert PastedSlots(m, m) == m;
    }
  }

  /** When `step` leaves every object of `t0` alone at its depth, it leaves alone each subtree `g` found in `t0`. */
  lemma {:induction false} FixedWhereKept(t0: GameObject, step: (GameObject, nat) -> GameObject, p: Pos, g: GameObject)
    requires ValidPos(t0, p) && At(t0, p) == g
    requires forall q {:trigger step(At(t0, q), |q|)} :: ValidPos(t0, q) ==> step(At(t0, q), |q|) == At(t0, q)
    ensures Fixed(g, step, |p|)
    decreases g
  {
    forall i: nat | i < |g.children|
      ensures Fixed(g.children[i], step, |p| + 1)
    {
      AtSnoc(t0, p, i);
      FixedWhereKept(t0, step, p + [i], g.children[i]);
    }
  }

  /**
   * Copying a subtree and pasting the records back into it changes
   * nothing, provided no two of its objects with a mesh renderer share
   * name and depth (otherwise the first record wins for both).
   */
  lemma CopyPasteRoundTrip(t: GameObject)
    requires DistinctRenderers(t)
    ensures Pasted(t, Collected(t, []), 0) == t
  {
    var step := PasteStep(Collected(t, []));
    forall q | ValidPos(t, q)
      ensures step(At(t, q), |q|) == At(t, q)
    {
      OwnRecordKept(t, q);
    }
    FixedWhereKept(t, step, [], t);
    MapTreeFixed(t, step, 0);
  }
}
