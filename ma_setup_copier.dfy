/**
 * MaterialSetupCopier of the Modular Avatar material helper: records the
 * material setup of one hierarchy, or of several as marked groups.
 *
 * Paths here leave the scanned root's own name out: the root's path is
 * "" and a descendant's path is the names below the root joined by '/'.
 */
module MASetupCopier {
  import opened Collections
  import opened Text
  import opened Scene
  import opened HierarchyScan
  import opened MaterialSetup
  import ObjectMatcher

  /** The exceptions the copy entry points throw for bad arguments. */
  datatype CopyOutcome =
    | Copied(data: CopiedMaterialData)
    | ArgumentNullException(paramName: string)
    | ArgumentException(paramName: string)

  function MaterialsOf(g: GameObject): seq<Option<MaterialId>>
  {
    if g.renderer.Some? then g.renderer.value.sharedMaterials else []
  }

  /** The setup records made for walk records, with the scanned root's name. */
  function SetupsOf(hits: seq<Hit>, rootName: string): (r: seq<MaterialSetupData>)
    ensures |r| == |hits|
    ensures forall i :: 0 <= i < |hits| ==>
      r[i] == SetupOf(hits[i].node.name, hits[i].path, MaterialsOf(hits[i].node), hits[i].depth, rootName)
  {
    if |hits| == 0 then []
    else [SetupOf(hits[0].node.name, hits[0].path, MaterialsOf(hits[0].node), hits[0].depth, rootName)] + SetupsOf(hits[1..], rootName)
  }

  lemma {:induction false} SetupsOfConcat(a: seq<Hit>, b: seq<Hit>, rootName: string)
    ensures SetupsOf(a + b, rootName) == SetupsOf(a, rootName) + SetupsOf(b, rootName)
  {
    if |a| == 0 {
      assert a + b == b;
    } else {
      assert (a + b)[1..] == a[1..] + b;
      SetupsOfConcat(a[1..], b, rootName);
    }
  }

  /**
   * The path of the node being visited: the incoming path itself at depth
   * 0 (the scanned root), the incoming path extended by the node's name
   * below it.
   */
  function CurrentPath(current: GameObject, relativePath: string, depth: nat): string
  {
    if depth > 0 then ExtendPath(relativePath, current.name) else relativePath
  }

  /** What a scan of `current` appends to the list. */
  function Scanned(current: GameObject, relativePath: string, depth: nat, rootName: string): seq<MaterialSetupData>
  {
    SetupsOf(Hits(current, CurrentPath(current, relativePath, depth), depth), rootName)
  }

  /**
   * ScanHierarchy: appends the records of the walk of `current` to
   * `setups`; the shared list the source appends to is threaded through.
   */
  method ScanHierarchy(current: GameObject, relativePath: string, setups: seq<MaterialSetupData>, depth: nat, rootName: string)
    returns (out: seq<MaterialSetupData>)
    ensures out == setups + Scanned(current, relativePath, depth, rootName)
    decreases current, 1
  {
    if depth >= MaxHierarchyDepth {
      assert Scanned(current, relativePath, depth, rootName) == [];
      return setups;
    }
    var currentPath := if relativePath == "" then "" else relativePath;
    if depth > 0 {
      currentPath := if currentPath == "" then current.name else currentPath + "/" + current.name;
    }
    assert currentPath == CurrentPath(current, relativePath, depth);
    ScanStart(current, relativePath, depth, rootName);
    out := setups;
    ghost var own: seq<MaterialSetupData> := [];
    if current.renderer.Some? {
      var materials := current.renderer.value.sharedMaterials;
      if |materials| > 0 {
        var setupData := NewSetup(current.name, currentPath, Some(materials), depth, rootName);
        out := out + [setupData];
        own := [setupData];
      }
    }
    assert out == setups + own;
    assert own == if Recorded(current) then [SetupOf(current.name, currentPath, current.renderer.value.sharedMaterials, depth, rootName)] else [];
    ghost var rest := SetupsOf(ChildHits(current, currentPath, depth, 0), rootName);
    ConcatAssoc(setups, own, rest);
    out := ScanChildren(current, currentPath, out, depth, rootName);
    ConcatAssoc(setups, own, rest);
  }

  /** The loop over the children of a visited node: each child's scan, in index order. */
  method ScanChildren(current: GameObject, currentPath: string, setups: seq<MaterialSetupData>, depth: nat, rootName: string)
    returns (out: seq<MaterialSetupData>)
    ensures out == setups + SetupsOf(ChildHits(current, currentPath, depth, 0), rootName)
    decreases current, 0
  {
    out := setups;
    ghost var total := setups + SetupsOf(ChildHits(current, currentPath, depth, 0), rootName);
    for i := 0 to |current.children|
      invariant out + SetupsOf(ChildHits(current, currentPath, depth, i), rootName) == total
    {
      ghost var before := out;
      ghost var mine := Scanned(current.children[i], currentPath, depth + 1, rootName);
      ghost var rest := SetupsOf(ChildHits(current, currentPath, depth, i + 1), rootName);
      ScanStep(current, currentPath, depth, i, rootName);
      out := ScanHierarchy(current.children[i], currentPath, out, depth + 1, rootName);
      ConcatAssoc(before, mine, rest);
    }
    assert out + [] == out;
  }

  /** Below the depth cap a scan records the node itself, if it has a slot, and then its children. */
  lemma ScanStart(current: GameObject, relativePath: string, depth: nat, rootName: string)
    requires depth < MaxHierarchyDepth
    ensures var cp := CurrentPath(current, relativePath, depth);
      Scanned(current, relativePath, depth, rootName)
      == (if Recorded(current) then [SetupOf(current.name, cp, current.renderer.value.sharedMaterials, depth, rootName)] else [])
         + SetupsOf(ChildHits(current, cp, depth, 0), rootName)
  {
    var cp := CurrentPath(current, relativePath, depth);
    var own := if Recorded(current) then [Hit(current, cp, depth)] else [];
    SetupsOfConcat(own, ChildHits(current, cp, depth, 0), rootName);
  }

  /** The children from `i` on: the scan of child `i`, then the children after it. */
  lemma ScanStep(current: GameObject, currentPath: string, depth: nat, i: nat, rootName: string)
    requires i < |current.children|
    ensures SetupsOf(ChildHits(current, currentPath, depth, i), rootName)
         == Scanned(current.children[i], currentPath, depth + 1, rootName) + SetupsOf(ChildHits(current, currentPath, depth, i + 1), rootName)
  {
    var child := current.children[i];
    SetupsOfConcat(Hits(child, ExtendPath(currentPath, child.name), depth + 1), ChildHits(current, currentPath, depth, i + 1), rootName);
  }

  /** The records of copying from `root`, in the order they are made. */
  function CopyOf(root: GameObject): seq<MaterialSetupData>
  {
    Scanned(root, "", 0, root.name)
  }

  /** CopyMaterialSetup: null is rejected; otherwise the records of the hierarchy, named after the root. */
  method CopyMaterialSetup(sourceRoot: Option<GameObject>) returns (r: CopyOutcome)
    ensures sourceRoot.None? <==> r == ArgumentNullException("sourceRoot")
    ensures sourceRoot.Some? ==> r == Copied(CopiedMaterialData(CopyOf(sourceRoot.value), sourceRoot.value.name))
  {
    if sourceRoot.None? {
      return ArgumentNullException("sourceRoot");
    }
    var root := sourceRoot.value;
    var setups := ScanHierarchy(root, "", [], 0, root.name);
    r := Copied(CopiedMaterialData(setups, root.name));
  }

  /**
   * Every record of a copy is the record of a node with a material slot
   * fewer than 10 levels below the root: its name, its slots, its depth,
   * the root's name, and the path of names below the root.
   */
  lemma CopyRecords(root: GameObject, s: MaterialSetupData)
    requires s in CopyOf(root)
    ensures s.hierarchyDepth < MaxHierarchyDepth
    ensures s.rootObjectName == root.name
    ensures exists p :: (ValidPos(root, p) && |p| == s.hierarchyDepth && Recorded(At(root, p)) &&
                         s == SetupOf(At(root, p).name, PathFrom("", NamesBelow(root, p)), MaterialsOf(At(root, p)), |p|, root.name))
  {
    var hits := Hits(root, "", 0);
    var i :| 0 <= i < |hits| && CopyOf(root)[i] == s;
    WalkRecords(root, "", hits[i]);
  }

  /** Every node with a material slot fewer than 10 levels below the root has its record. */
  lemma CopyComplete(root: GameObject, p: Pos)
    requires ValidPos(root, p) && Recorded(At(root, p)) && |p| < MaxHierarchyDepth
    ensures SetupOf(At(root, p).name, PathFrom("", NamesBelow(root, p)), MaterialsOf(At(root, p)), |p|, root.name) in CopyOf(root)
  {
    WalkComplete(root, "", p);
    var hits := Hits(root, "", 0);
    var i :| 0 <= i < |hits| && hits[i] == Hit(At(root, p), PathFrom("", NamesBelow(root, p)), |p|);
    assert CopyOf(root)[i] == SetupOf(At(root, p).name, PathFrom("", NamesBelow(root, p)), MaterialsOf(At(root, p)), |p|, root.name);
  }

  /** The records come in pre-order: the copy is the walk's records of the pre-order positions. */
  lemma CopyInPreOrder(root: GameObject)
    ensures CopyOf(root) == SetupsOf(HitsAt(root, PreOrder(root), "", 0), root.name)
  {
    HitsPreOrder(root, "", 0);
  }

  /**
   * The recorded path is the relative path ObjectMatcher builds for the
   * same node; when names are non-empty and free of '/', it has as many
   * segments as the recorded depth.
   */
  lemma CopyPathIsRelativePath(root: GameObject, p: Pos)
    requires ValidPos(root, p) && ObjectMatcher.WellNamed(root)
    ensures PathFrom("", NamesBelow(root, p)) == ObjectMatcher.RelativePath(root, p)
    ensures ObjectMatcher.PathDepth(PathFrom("", NamesBelow(root, p))) == |p|
  {
    ObjectMatcher.WellNamedNames(root, p);
    if |p| > 0 {
      PathFromJoin("", NamesBelow(root, p));
    }
    ObjectMatcher.RelativePathParts(root, p);
  }

  /**
   * Copying a hierarchy and matching its records back against the same
   * hierarchy finds, for every record, a node with the record's exact
   * name and path.
   */
  lemma CopyMatchesBack(root: GameObject, s: MaterialSetupData)
    requires s in CopyOf(root) && ObjectMatcher.WellNamed(root)
    ensures var r := ObjectMatcher.FindMatchingObject(Some(root), s.objectName, s.relativePath, s.hierarchyDepth, s.rootObjectName);
      r.Some? && ValidPos(root, r.value) && At(root, r.value).name == s.objectName &&
      ObjectMatcher.RelativePath(root, r.value) == s.relativePath
  {
    CopyRecords(root, s);
    var p :| ValidPos(root, p) && |p| == s.hierarchyDepth && Recorded(At(root, p)) &&
      s == SetupOf(At(root, p).name, PathFrom("", NamesBelow(root, p)), MaterialsOf(At(root, p)), |p|, root.name);
    CopyPathIsRelativePath(root, p);
    var nodes := ObjectMatcher.RendererNodes(root);
    assert p in nodes;
    FilterMember(nodes, q => ValidPos(root, q) && ObjectMatcher.RelativePath(root, q) == s.relativePath && At(root, q).name == s.objectName, p);
    ObjectMatcher.FindMatchingObjectExactPath(root, s.objectName, s.relativePath, s.hierarchyDepth, s.rootObjectName);
    ObjectMatcher.ExactPathMatchesFirst(root, s.objectName, s.relativePath);
  }

  // ---------------------------------------------------------------------
  // Several roots

  /** The marker entry that opens the group of the root at index `i`. */
  function GroupMarker(i: nat, rootName: string): MaterialSetupData
  {
    MaterialSetupData(GroupMarkerPrefix + NatToString(i) + "__", rootName, [], [], 0, "")
  }

  /** The entries made by the first `k` roots: for each non-null root its marker, then its records. */
  function MultiSetups(roots: seq<Option<GameObject>>, k: nat): seq<MaterialSetupData>
    requires k <= |roots|
  {
    if k == 0 then []
    else
      var own := if roots[k - 1].Some? then [GroupMarker(k - 1, roots[k - 1].value.name)] + CopyOf(roots[k - 1].value) else [];
      MultiSetups(roots, k - 1) + own
  }

  lemma MultiSetupsStep(roots: seq<Option<GameObject>>, i: nat)
    requires i < |roots|
    ensures roots[i].None? ==> MultiSetups(roots, i + 1) == MultiSetups(roots, i)
    ensures roots[i].Some? ==>
      MultiSetups(roots, i + 1) == (MultiSetups(roots, i) + [GroupMarker(i, roots[i].value.name)]) + CopyOf(roots[i].value)
  {
    if roots[i].Some? {
      ConcatAssoc(MultiSetups(roots, i), [GroupMarker(i, roots[i].value.name)], CopyOf(roots[i].value));
    } else {
      assert MultiSetups(roots, i) + [] == MultiSetups(roots, i);
    }
  }

  /**
   * The source name after the first `k` roots: the first root's name, and
   * ", name" appended for every later non-null root (to "" when the first
   * root is null).
   */
  function MultiRootName(roots: seq<Option<GameObject>>, k: nat): string
    requires k <= |roots|
  {
    if k == 0 then ""
    else if roots[k - 1].None? then MultiRootName(roots, k - 1)
    else if k - 1 == 0 then roots[0].value.name
    else MultiRootName(roots, k - 1) + ", " + roots[k - 1].value.name
  }

  lemma MultiRootNameStep(roots: seq<Option<GameObject>>, i: nat)
    requires i < |roots|
    ensures MultiRootName(roots, i + 1) ==
      if roots[i].None? then MultiRootName(roots, i)
      else if i == 0 then roots[0].value.name
      else MultiRootName(roots, i) + ", " + roots[i].value.name
  {
  }

  /** CopyMaterialSetupFromMultiple: a null or empty array is rejected; otherwise every non-null root becomes a marked group. */
  method CopyMaterialSetupFromMultiple(sourceRoots: Option<seq<Option<GameObject>>>) returns (r: CopyOutcome)
    ensures sourceRoots.None? || |sourceRoots.value| == 0 <==> r == ArgumentException("sourceRoots")
    ensures sourceRoots.Some? && |sourceRoots.value| > 0 ==>
      r == Copied(CopiedMaterialData(MultiSetups(sourceRoots.value, |sourceRoots.value|), MultiRootName(sourceRoots.value, |sourceRoots.value|)))
  {
    if sourceRoots.None? || |sourceRoots.value| == 0 {
      return ArgumentException("sourceRoots");
    }
    var roots := sourceRoots.value;
    var setups: seq<MaterialSetupData> := [];
    var sourceRootName := "";
    for i := 0 to |roots|
      invariant setups == MultiSetups(roots, i)
      invariant sourceRootName == MultiRootName(roots, i)
    {
      if roots[i].None? {
        MultiSetupsStep(roots, i);
        MultiRootNameStep(roots, i);
        continue;
      }
      var sourceRoot := roots[i].value;
      var groupStartMarker := MaterialSetupData(GroupMarkerPrefix + NatToString(i) + "__", sourceRoot.name, [], [], 0, "");
      assert groupStartMarker == GroupMarker(i, sourceRoot.name);
      setups := setups + [groupStartMarker];
      setups := ScanHierarchy(sourceRoot, "", setups, 0, sourceRoot.name);
      MultiSetupsStep(roots, i);
      if i == 0 {
        sourceRootName := sourceRoot.name;
      } else {
        sourceRootName := sourceRootName + ", " + sourceRoot.name;
      }
      MultiRootNameStep(roots, i);
    }
    r := Copied(CopiedMaterialData(setups, sourceRootName));
  }

  /** A hierarchy none of whose nodes has a name starting with the marker prefix. */
  ghost predicate NoMarkerNames(t: GameObject)
  {
    forall p :: ValidPos(t, p) ==> !StartsWith(At(t, p).name, GroupMarkerPrefix)
  }

  lemma CopyHasNoMarkers(root: GameObject)
    requires NoMarkerNames(root)
    ensures forall i :: 0 <= i < |CopyOf(root)| ==> NotMarker(CopyOf(root)[i])
  {
    forall i | 0 <= i < |CopyOf(root)|
      ensures NotMarker(CopyOf(root)[i])
    {
      CopyRecords(root, CopyOf(root)[i]);
    }
  }

  lemma MarkerIsMarker(i: nat, rootName: string)
    ensures IsMarker(GroupMarker(i, rootName))
  {
    var name := GroupMarkerPrefix + NatToString(i) + "__";
    assert name[..|GroupMarkerPrefix|] == GroupMarkerPrefix;
  }

  /** The copies of the non-null roots among the first `k`, in order. */
  function RootCopies(roots: seq<Option<GameObject>>, k: nat): seq<seq<MaterialSetupData>>
    requires k <= |roots|
  {
    if k == 0 then []
    else RootCopies(roots, k - 1) + (if roots[k - 1].Some? then [CopyOf(roots[k - 1].value)] else [])
  }

  /** Entries with no marker appended to the open group stay in it. */
  lemma {:induction false} RunsAppend(x: seq<MaterialSetupData>, rest: seq<MaterialSetupData>, current: seq<MaterialSetupData>)
    requires forall i :: 0 <= i < |x| ==> NotMarker(x[i])
    ensures Runs(x + rest, current) == Runs(rest, current + x)
  {
    if |x| == 0 {
      assert x + rest == rest;
      assert current + x == current;
    } else {
      assert (x + rest)[0] == x[0];
      assert (x + rest)[1..] == x[1..] + rest;
      RunsAppend(x[1..], rest, current + [x[0]]);
      assert current + [x[0]] + x[1..] == current + x;
    }
  }

  /**
   * Splitting what the first `k` roots produce, followed by `rest` that
   * opens with a marker or is empty, gives the non-empty copies of those
   * roots, followed by the groups of `rest`.
   */
  lemma {:induction false} RunsOfMulti(roots: seq<Option<GameObject>>, k: nat, rest: seq<MaterialSetupData>)
    requires k <= |roots|
    requires forall j :: 0 <= j < |roots| && roots[j].Some? ==> NoMarkerNames(roots[j].value)
    requires |rest| == 0 || IsMarker(rest[0])
    ensures Runs(MultiSetups(roots, k) + rest, []) == Filter(RootCopies(roots, k), NonEmpty) + Runs(rest, [])
  {
    if k == 0 {
      assert MultiSetups(roots, 0) + rest == rest;
    } else {
      var prev := MultiSetups(roots, k - 1);
      if roots[k - 1].None? {
        assert MultiSetups(roots, k) == prev;
        RunsOfMulti(roots, k - 1, rest);
        assert RootCopies(roots, k) == RootCopies(roots, k - 1) + [];
        assert RootCopies(roots, k - 1) + [] == RootCopies(roots, k - 1);
      } else {
        var root := roots[k - 1].value;
        var copy := CopyOf(root);
        var marker := GroupMarker(k - 1, root.name);
        MarkerIsMarker(k - 1, root.name);
        CopyHasNoMarkers(root);
        var tail := [marker] + copy + rest;
        assert MultiSetups(roots, k) + rest == prev + tail;
        RunsOfMulti(roots, k - 1, tail);
        RunsOfGroup(marker, copy, rest);
        FilterConcat(RootCopies(roots, k - 1), [copy], NonEmpty);
        ConcatAssoc(Filter(RootCopies(roots, k - 1), NonEmpty), Filter([copy], NonEmpty), Runs(rest, []));
      }
    }
  }

  /** A marker, a run of entries without markers, then a marker or the end: one group, if the run is non-empty. */
  lemma RunsOfGroup(marker: MaterialSetupData, copy: seq<MaterialSetupData>, rest: seq<MaterialSetupData>)
    requires IsMarker(marker)
    requires forall i :: 0 <= i < |copy| ==> NotMarker(copy[i])
    requires |rest| == 0 || IsMarker(rest[0])
    ensures Runs([marker] + copy + rest, []) == Filter([copy], NonEmpty) + Runs(rest, [])
  {
    calc {
      Runs([marker] + copy + rest, []);
    == { ConcatAssoc([marker], copy, rest); RunsMarkerHead(marker, copy + rest); }
      Runs(copy + rest, []);
    == { RunsAppend(copy, rest, []); assert [] + copy == copy; }
      Runs(rest, copy);
    == { RunsClose(rest, copy); }
      (if |copy| > 0 then [copy] else []) + Runs(rest, []);
    == { assert [copy][1..] == []; }
      Filter([copy], NonEmpty) + Runs(rest, []);
    }
  }

  /** A marker with no open group closes nothing. */
  lemma RunsMarkerHead(marker: MaterialSetupData, s: seq<MaterialSetupData>)
    requires IsMarker(marker)
    ensures Runs([marker] + s, []) == Runs(s, [])
  {
    assert ([marker] + s)[1..] == s;
  }

  /** Reaching a marker or the end closes the open group when it is non-empty. */
  lemma RunsClose(rest: seq<MaterialSetupData>, current: seq<MaterialSetupData>)
    requires |rest| == 0 || IsMarker(rest[0])
    ensures Runs(rest, current) == (if |current| > 0 then [current] else []) + Runs(rest, [])
  {
  }

  predicate NonEmpty(s: seq<MaterialSetupData>)
  {
    |s| > 0
  }

  /**
   * The groups of a copy of several roots, none of whose nodes looks like
   * a marker, are the copies of the non-null roots with at least one record,
   * in order; the leading entry is the marker of the first non-null root.
   */
  lemma MultiGroups(roots: seq<Option<GameObject>>)
    requires forall j :: 0 <= j < |roots| && roots[j].Some? ==> NoMarkerNames(roots[j].value)
    requires exists j :: 0 <= j < |roots| && roots[j].Some? && |CopyOf(roots[j].value)| > 0
    ensures var data := CopiedMaterialData(MultiSetups(roots, |roots|), MultiRootName(roots, |roots|));
      Groups(Some(data)) == Filter(RootCopies(roots, |roots|), NonEmpty)
  {
    var all := MultiSetups(roots, |roots|);
    RunsOfMulti(roots, |roots|, []);
    assert all + [] == all;
    var j :| 0 <= j < |roots| && roots[j].Some? && |CopyOf(roots[j].value)| > 0;
    RootCopiesMember(roots, |roots|, j);
    assert CopyOf(roots[j].value) in Filter(RootCopies(roots, |roots|), NonEmpty);
    MultiSetupsMember(roots, |roots|, j);
  }

  lemma {:induction false} RootCopiesMember(roots: seq<Option<GameObject>>, k: nat, j: nat)
    requires j < k <= |roots| && roots[j].Some?
    ensures CopyOf(roots[j].value) in RootCopies(roots, k)
  {
    if j < k - 1 {
      RootCopiesMember(roots, k - 1, j);
    }
  }

  lemma {:induction false} MultiSetupsMember(roots: seq<Option<GameObject>>, k: nat, j: nat)
    requires j < k <= |roots| && roots[j].Some?
    ensures |MultiSetups(roots, k)| > 0
  {
    if j < k - 1 {
      MultiSetupsMember(roots, k - 1, j);
    }
  }
}
