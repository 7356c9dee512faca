/**
 * The material setup records of the Modular Avatar material helper, the
 * container a copy produces, and the session buffer that holds the last
 * copy between the copy and the create commands.
 *
 * A null string field is modelled as "". Concatenation and interpolation
 * treat null as the empty string. `GetCopiedDataGroups` calls `StartsWith`
 * on `objectName`, which would throw on null, but every record the copiers
 * store carries a non-null object name, so that case does not arise. A
 * null `Material[]` argument is `None`.
 */
module MaterialSetup {
  import opened Collections
  import opened Text
  import opened Scene

  datatype MaterialSetupData = MaterialSetupData(
    objectName: string,
    relativePath: string,
    materials: seq<Option<MaterialId>>,
    materialSlots: seq<int>,
    hierarchyDepth: int,
    rootObjectName: string)

  /** `copyTime` is a clock reading and is not modelled. */
  datatype CopiedMaterialData = CopiedMaterialData(materialSetups: seq<MaterialSetupData>, sourceRootName: string)

  /** 0, 1, ..., n - 1. */
  function Indices(n: nat): (r: seq<int>)
    ensures |r| == n && forall i :: 0 <= i < n ==> r[i] == i
  {
    seq(n, i => i)
  }

  /** The record the parameterised constructor builds: every slot numbered by its index. */
  function SetupOf(objectName: string, relativePath: string, materials: seq<Option<MaterialId>>, depth: int, rootName: string): MaterialSetupData
  {
    MaterialSetupData(objectName, relativePath, materials, Indices(|materials|), depth, rootName)
  }

  /** The parameterless constructor: empty arrays, everything else at its default. */
  method NewEmptySetup() returns (d: MaterialSetupData)
    ensures d.materials == [] && d.materialSlots == []
    ensures d.objectName == "" && d.relativePath == "" && d.hierarchyDepth == 0 && d.rootObjectName == ""
  {
    d := MaterialSetupData("", "", [], [], 0, "");
  }

  /**
   * The parameterised constructor: a null materials array becomes an
   * empty one, and slot `i` is numbered `i`.
   */
  method NewSetup(objectName: string, relativePath: string, materials: Option<seq<Option<MaterialId>>>, depth: int, rootName: string)
    returns (d: MaterialSetupData)
    ensures d.materials == (if materials.None? then [] else materials.value)
    ensures |d.materialSlots| == |d.materials|
    ensures forall i :: 0 <= i < |d.materialSlots| ==> d.materialSlots[i] == i
    ensures d == SetupOf(objectName, relativePath, d.materials, depth, rootName)
  {
    var mats := if materials.None? then [] else materials.value;
    var slots := new int[|mats|];
    for i := 0 to |mats|
      invariant forall k :: 0 <= k < i ==> slots[k] == k
    {
      slots[i] := i;
    }
    d := MaterialSetupData(objectName, relativePath, mats, slots[..], depth, rootName);
  }

  // ---------------------------------------------------------------------
  // Groups

  const GroupMarkerPrefix: string := "__GROUP_START_"

  /** An entry whose name starts with the group marker prefix opens a new group. */
  predicate IsMarker(s: MaterialSetupData)
  {
    StartsWith(s.objectName, GroupMarkerPrefix)
  }

  predicate NotMarker(s: MaterialSetupData)
  {
    !IsMarker(s)
  }

  /**
   * The groups the split loop closes from `setups` on, given the entries
   * `current` already collected for the open group: each marker closes
   * the open group if it is non-empty, and the end closes the last one.
   */
  function Runs(setups: seq<MaterialSetupData>, current: seq<MaterialSetupData>): seq<seq<MaterialSetupData>>
  {
    if |setups| == 0 then (if |current| > 0 then [current] else [])
    else if IsMarker(setups[0]) then (if |current| > 0 then [current] else []) + Runs(setups[1..], [])
    else Runs(setups[1..], current + [setups[0]])
  }

  predicate HasData(data: Option<CopiedMaterialData>)
  {
    data.Some? && |data.value.materialSetups| > 0
  }

  /**
   * The groups of a copy: none without data; otherwise the runs between
   * markers, or all entries as one group when there is no run at all.
   */
  function Groups(data: Option<CopiedMaterialData>): seq<seq<MaterialSetupData>>
  {
    if !HasData(data) then []
    else
      var runs := Runs(data.value.materialSetups, []);
      if |runs| == 0 then [data.value.materialSetups] else runs
  }

  /** Every run is non-empty, and free of markers when the open group is. */
  lemma {:induction false} RunsShape(setups: seq<MaterialSetupData>, current: seq<MaterialSetupData>)
    requires forall i :: 0 <= i < |current| ==> NotMarker(current[i])
    ensures forall g :: g in Runs(setups, current) ==> |g| > 0
    ensures forall g, i :: g in Runs(setups, current) && 0 <= i < |g| ==> NotMarker(g[i])
  {
    if |setups| > 0 {
      if IsMarker(setups[0]) {
        RunsShape(setups[1..], []);
      } else {
        RunsShape(setups[1..], current + [setups[0]]);
      }
    }
  }

  /** The runs, put back together, are the open group followed by the non-marker entries in order. */
  lemma {:induction false} RunsFlatten(setups: seq<MaterialSetupData>, current: seq<MaterialSetupData>)
    ensures Flatten(Runs(setups, current)) == current + Filter(setups, NotMarker)
  {
    if |setups| == 0 {
      assert current + [] == current;
    } else {
      assert setups == [setups[0]] + setups[1..];
      var rest := setups[1..];
      if IsMarker(setups[0]) {
        RunsFlatten(rest, []);
        FlattenConcat(if |current| > 0 then [current] else [], Runs(rest, []));
        assert [] + Filter(rest, NotMarker) == Filter(rest, NotMarker);
      } else {
        RunsFlatten(rest, current + [setups[0]]);
      }
    }
  }

  /** With at least one non-marker entry the groups are non-empty, marker-free, and concatenate to the non-marker entries. */
  lemma GroupsOfEntries(data: CopiedMaterialData)
    requires exists i :: 0 <= i < |data.materialSetups| && NotMarker(data.materialSetups[i])
    ensures forall g :: g in Groups(Some(data)) ==> |g| > 0
    ensures forall g, i :: g in Groups(Some(data)) && 0 <= i < |g| ==> NotMarker(g[i])
    ensures Flatten(Groups(Some(data))) == Filter(data.materialSetups, NotMarker)
  {
    var setups := data.materialSetups;
    RunsShape(setups, []);
    RunsFlatten(setups, []);
    assert [] + Filter(setups, NotMarker) == Filter(setups, NotMarker);
    var i :| 0 <= i < |setups| && NotMarker(setups[i]);
    assert setups[i] in Filter(setups, NotMarker);
    assert |Runs(setups, [])| > 0;
  }

  /** A copy made only of markers is one group holding every entry, markers included. */
  lemma GroupsOfMarkers(data: CopiedMaterialData)
    requires |data.materialSetups| > 0
    requires forall i :: 0 <= i < |data.materialSetups| ==> IsMarker(data.materialSetups[i])
    ensures Groups(Some(data)) == [data.materialSetups]
  {
    var setups := data.materialSetups;
    RunsFlatten(setups, []);
    FilterEmpty(setups);
    RunsShape(setups, []);
    var runs := Runs(setups, []);
    if |runs| > 0 {
      FlattenHead(runs);
      assert false;
    }
  }

  lemma {:induction false} FilterEmpty(setups: seq<MaterialSetupData>)
    requires forall i :: 0 <= i < |setups| ==> IsMarker(setups[i])
    ensures Filter(setups, NotMarker) == []
  {
    if |setups| > 0 {
      FilterEmpty(setups[1..]);
    }
  }

  // ---------------------------------------------------------------------
  // The session buffer

  function TotalMaterials(setups: seq<MaterialSetupData>): nat
  {
    if |setups| == 0 then 0 else |setups[0].materials| + TotalMaterials(setups[1..])
  }

  lemma TotalMaterialsSnoc(setups: seq<MaterialSetupData>, k: nat)
    requires k < |setups|
    ensures TotalMaterials(setups[..k + 1]) == TotalMaterials(setups[..k]) + |setups[k].materials|
    decreases k
  {
    if k > 0 {
      assert setups[..k + 1][1..] == setups[1..][..k];
      assert setups[..k][1..] == setups[1..][..k - 1];
      TotalMaterialsSnoc(setups[1..], k - 1);
    }
  }

  /** The display text of a copy: the source name, the entry count and the total slot count. */
  function Description(data: Option<CopiedMaterialData>): string
  {
    if !HasData(data) then "No data copied"
    else
      "Copied from '" + data.value.sourceRootName + "': " + NatToString(|data.value.materialSetups|)
        + " objects, " + NatToString(TotalMaterials(data.value.materialSetups)) + " materials"
  }

  /** MAMaterialHelperSession: the static copy buffer, as an object. */
  class MAMaterialHelperSession {
    var copiedData: Option<CopiedMaterialData>

    constructor()
      ensures copiedData.None?
    {
      copiedData := None;
    }

    predicate HasCopiedData()
      reads this
    {
      HasData(copiedData)
    }

    method StoreCopiedData(data: Option<CopiedMaterialData>)
      modifies this
      ensures copiedData == data
      ensures HasCopiedData() <==> data.Some? && |data.value.materialSetups| > 0
    {
      copiedData := data;
    }

    method ClearCopiedData()
      modifies this
      ensures copiedData.None? && !HasCopiedData()
    {
      copiedData := None;
    }

    method GetCopiedDataDescription() returns (text: string)
      ensures text == Description(copiedData)
      ensures !HasCopiedData() ==> text == "No data copied"
    {
      if !HasCopiedData() {
        return "No data copied";
      }
      var setups := copiedData.value.materialSetups;
      var totalMaterials: nat := 0;
      for i := 0 to |setups|
        invariant totalMaterials == TotalMaterials(setups[..i])
      {
        TotalMaterialsSnoc(setups, i);
        totalMaterials := totalMaterials + |setups[i].materials|;
      }
      assert setups[..|setups|] == setups;
      text := "Copied from '" + copiedData.value.sourceRootName + "': " + NatToString(|setups|)
        + " objects, " + NatToString(totalMaterials) + " materials";
    }

    method GetCopiedDataGroups() returns (groups: seq<seq<MaterialSetupData>>)
      ensures groups == Groups(copiedData)
      ensures !HasCopiedData() ==> groups == []
    {
      if !HasCopiedData() {
        return [];
      }
      var setups := copiedData.value.materialSetups;
      groups := [];
      var currentGroup: seq<MaterialSetupData> := [];
      for i := 0 to |setups|
        invariant groups + Runs(setups[i..], currentGroup) == Runs(setups, [])
      {
        assert setups[i..][1..] == setups[i + 1..];
        if StartsWith(setups[i].objectName, "__GROUP_START_") {
          if |currentGroup| > 0 {
            groups := groups + [currentGroup];
          }
          currentGroup := [];
        } else {
          currentGroup := currentGroup + [setups[i]];
        }
      }
      if |currentGroup| > 0 {
        groups := groups + [currentGroup];
      }
      if |groups| == 0 && |setups| > 0 {
        groups := groups + [setups];
      }
    }

    method GetGroupCount() returns (count: nat)
      ensures count == |Groups(copiedData)|
    {
      var groups := GetCopiedDataGroups();
      count := |groups|;
    }
  }
}
