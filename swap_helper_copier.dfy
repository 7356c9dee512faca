/**
 * MaterialSetupCopier of the original Material Swap Helper. Unlike the
 * Modular Avatar helper's copier, paths include the scanned root's own
 * name: the root's path is its name, a descendant's path is the root's
 * name followed by the names below it, joined by '/'. HasMaterials and
 * GetMaterialStats are the same code as in the other copier and are
 * modelled once, in HierarchyScan.
 */
module SwapHelperCopier {
  import opened Collections
  import opened Text
  import opened Scene
  import opened HierarchyScan
  import opened SwapHelperData

  datatype CopyOutcome =
    | Copied(data: CopiedMaterialData)
    | ArgumentNullException(paramName: string)

  function MaterialsOf(g: GameObject): seq<Option<MaterialId>>
  {
    if g.renderer.Some? then g.renderer.value.sharedMaterials else []
  }

  function SetupsOf(hits: seq<Hit>): (r: seq<MaterialSetupData>)
    ensures |r| == |hits|
    ensures forall i :: 0 <= i < |hits| ==> r[i] == SetupOf(hits[i].node.name, hits[i].path, MaterialsOf(hits[i].node))
  {
    if |hits| == 0 then [] else [SetupOf(hits[0].node.name, hits[0].path, MaterialsOf(hits[0].node))] + SetupsOf(hits[1..])
  }

  lemma {:induction false} SetupsOfConcat(a: seq<Hit>, b: seq<Hit>)
    ensures SetupsOf(a + b) == SetupsOf(a) + SetupsOf(b)
  {
    if |a| == 0 {
      assert a + b == b;
    } else {
      assert (a + b)[1..] == a[1..] + b;
      SetupsOfConcat(a[1..], b);
    }
  }

  /** What a scan of `current` reached with `relativePath` appends: every node's path ends with its own name. */
  function Scanned(current: GameObject, relativePath: string, depth: nat): seq<MaterialSetupData>
  {
    SetupsOf(Hits(current, ExtendPath(relativePath, current.name), depth))
  }

  /** ScanHierarchy: appends the records of the walk of `current` to `setups`. */
  method ScanHierarchy(current: GameObject, relativePath: string, setups: seq<MaterialSetupData>, depth: nat)
    returns (out: seq<MaterialSetupData>)
    ensures out == setups + Scanned(current, relativePath, depth)
    decreases current, 1
  {
    if depth >= MaxHierarchyDepth {
      assert Scanned(current, relativePath, depth) == [];
      return setups;
    }
    var currentPath := if relativePath == "" then current.name else relativePath + "/" + current.name;
    ScanStart(current, relativePath, depth);
    out := setups;
    ghost var own: seq<MaterialSetupData> := [];
    if current.renderer.Some? {
      var materials := current.renderer.value.sharedMaterials;
      if |materials| > 0 {
        var setupData := NewSetup(current.name, currentPath, Some(materials));
        out := out + [setupData];
        own := [setupData];
      }
    }
    assert out == setups + own;
    assert own == if Recorded(current) then [SetupOf(current.name, currentPath, current.renderer.value.sharedMaterials)] else [];
    ghost var rest := SetupsOf(ChildHits(current, currentPath, depth, 0));
    ConcatAssoc(setups, own, rest);
    out := ScanChildren(current, currentPath, out, depth);
    ConcatAssoc(setups, own, rest);
  }

  /** The loop over the children of a visited node. */
  method ScanChildren(current: GameObject, currentPath: string, setups: seq<MaterialSetupData>, depth: nat)
    returns (out: seq<MaterialSetupData>)
    ensures out == setups + SetupsOf(ChildHits(current, currentPath, depth, 0))
    decreases current, 0
  {
    out := setups;
    ghost var total := setups + SetupsOf(ChildHits(current, currentPath, depth, 0));
    for i := 0 to |current.children|
      invariant out + SetupsOf(ChildHits(current, currentPath, depth, i)) == total
    {
      ghost var before := out;
      ghost var mine := Scanned(current.children[i], currentPath, depth + 1);
      ghost var rest := SetupsOf(ChildHits(current, currentPath, depth, i + 1));
      ScanStep(current, currentPath, depth, i);
      out := ScanHierarchy(current.children[i], currentPath, out, depth + 1);
      ConcatAssoc(before, mine, rest);
    }
    assert out + [] == out;
  }

  lemma ScanStart(current: GameObject, relativePath: string, depth: nat)
    requires depth < MaxHierarchyDepth
    ensures var cp := ExtendPath(relativePath, current.name);
      Scanned(current, relativePath, depth)
      == (if Recorded(current) then [SetupOf(current.name, cp, current.renderer.value.sharedMaterials)] else [])
         + SetupsOf(ChildHits(current, cp, depth, 0))
  {
    var cp := ExtendPath(relativePath, current.name);
    var own := if Recorded(current) then [Hit(current, cp, depth)] else [];
    SetupsOfConcat(own, ChildHits(current, cp, depth, 0));
  }

  lemma ScanStep(current: GameObject, currentPath: string, depth: nat, i: nat)
    requires i < |current.children|
    ensures SetupsOf(ChildHits(current, currentPath, depth, i))
         == Scanned(current.children[i], currentPath, depth + 1) + SetupsOf(ChildHits(current, currentPath, depth, i + 1))
  {
    var child := current.children[i];
    SetupsOfConcat(Hits(child, ExtendPath(currentPath, child.name), depth + 1), ChildHits(current, currentPath, depth, i + 1));
  }

  function CopyOf(root: GameObject): seq<MaterialSetupData>
  {
    Scanned(root, "", 0)
  }

  /** CopyMaterialSetup: null is rejected; otherwise the records of the hierarchy, named after the root. */
  method CopyMaterialSetup(sourceRoot: Option<GameObject>) returns (r: CopyOutcome)
    ensures sourceRoot.None? <==> r == ArgumentNullException("sourceRoot")
    ensures sourceRoot.Some? ==> r == Copied(CopiedMaterialData(CopyOf(sourceRoot.value), sourceRoot.value.name))
  {
    if sourceRoot.None? {
      return ArgumentNullException("sourceRoot");
    }
    var root := sourceRoot.value;
    var setups := ScanHierarchy(root, "", [], 0);
    r := Copied(CopiedMaterialData(setups, root.name));
  }

  /**
   * Every record is that of a node with a material slot fewer than 10
   * levels below the root, and its path starts with the root's name: the
   * root's own name alone for the root, the root's name, '/', and the
   * names below the root joined by '/' for a descendant whose names are
   * non-empty.
   */
  lemma CopyRecords(root: GameObject, s: MaterialSetupData)
    requires s in CopyOf(root)
    ensures exists p :: (ValidPos(root, p) && |p| < MaxHierarchyDepth && Recorded(At(root, p)) &&
                         s == SetupOf(At(root, p).name, PathFrom(root.name, NamesBelow(root, p)), MaterialsOf(At(root, p))))
  {
    var hits := Hits(root, ExtendPath("", root.name), 0);
    var i :| 0 <= i < |hits| && CopyOf(root)[i] == s;
    WalkRecords(root, ExtendPath("", root.name), hits[i]);
  }

  lemma CopyComplete(root: GameObject, p: Pos)
    requires ValidPos(root, p) && Recorded(At(root, p)) && |p| < MaxHierarchyDepth
    ensures SetupOf(At(root, p).name, PathFrom(root.name, NamesBelow(root, p)), MaterialsOf(At(root, p))) in CopyOf(root)
  {
    WalkComplete(root, root.name, p);
    var hits := Hits(root, root.name, 0);
    var i :| 0 <= i < |hits| && hits[i] == Hit(At(root, p), PathFrom(root.name, NamesBelow(root, p)), |p|);
    assert CopyOf(root)[i] == SetupOf(At(root, p).name, PathFrom(root.name, NamesBelow(root, p)), MaterialsOf(At(root, p)));
  }

  /** The recorded path of a node: the root's name, then the names below it. */
  lemma RecordedPathShape(root: GameObject, p: Pos)
    requires ValidPos(root, p) && root.name != ""
    requires forall i :: 0 <= i < |p| ==> NamesBelow(root, p)[i] != ""
    ensures |p| == 0 ==> PathFrom(root.name, NamesBelow(root, p)) == root.name
    ensures |p| > 0 ==> PathFrom(root.name, NamesBelow(root, p)) == root.name + "/" + Join(NamesBelow(root, p), '/')
  {
    if |p| > 0 {
      PathFromJoin(root.name, NamesBelow(root, p));
    }
  }
}
