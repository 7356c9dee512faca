/**
 * The material setup records of the original Material Swap Helper (no
 * depth and no root name), the container a copy produces, and the session
 * buffer that holds the last copy.
 *
 * As in the Modular Avatar helper, a null string field is modelled as ""
 * and a null `Material[]` argument as `None`.
 */
module SwapHelperData {
  import opened Collections
  import opened Text
  import opened Scene

  datatype MaterialSetupData = MaterialSetupData(
    objectName: string,
    relativePath: string,
    materials: seq<Option<MaterialId>>,
    materialSlots: seq<int>)

  /** `copyTime` is a clock reading and is not modelled. */
  datatype CopiedMaterialData = CopiedMaterialData(materialSetups: seq<MaterialSetupData>, sourceRootName: string)

  /** The record the parameterised constructor builds: slot `i` numbered `i`. */
  function SetupOf(objectName: string, relativePath: string, materials: seq<Option<MaterialId>>): MaterialSetupData
  {
    MaterialSetupData(objectName, relativePath, materials, seq(|materials|, i => i))
  }

  /** The parameterless constructor: empty arrays. */
  method NewEmptySetup() returns (d: MaterialSetupData)
    ensures d.materials == [] && d.materialSlots == []
    ensures d.objectName == "" && d.relativePath == ""
  {
    d := MaterialSetupData("", "", [], []);
  }

  /** The parameterised constructor: null becomes an empty array, and slot `i` is numbered `i`. */
  method NewSetup(objectName: string, relativePath: string, materials: Option<seq<Option<MaterialId>>>) returns (d: MaterialSetupData)
    ensures d.materials == (if materials.None? then [] else materials.value)
    ensures |d.materialSlots| == |d.materials|
    ensures forall i :: 0 <= i < |d.materialSlots| ==> d.materialSlots[i] == i
    ensures d == SetupOf(objectName, relativePath, d.materials)
  {
    var mats := if materials.None? then [] else materials.value;
    var slots := new int[|mats|];
    for i := 0 to |mats|
      invariant forall k :: 0 <= k < i ==> slots[k] == k
    {
      slots[i] := i;
    }
    d := MaterialSetupData(objectName, relativePath, mats, slots[..]);
  }

  predicate HasData(data: Option<CopiedMaterialData>)
  {
    data.Some? && |data.value.materialSetups| > 0
  }

  function TotalMaterials(setups: seq<MaterialSetupData>): nat
  {
    if |setups| == 0 then 0 else |setups[0].materials| + TotalMaterials(setups[1..])
  }

  lemma TotalMaterialsSnoc(setups: seq<MaterialSetupData>, k: nat)
    requires k < |setups|
    ensures TotalMaterials(setups[..k + 1]) == TotalMaterials(setups[..k]) + |setups[k].materials|
    decreases k
  {
    if k > 0 {
      assert setups[..k + 1][1..] == setups[1..][..k];
      assert setups[..k][1..] == setups[1..][..k - 1];
      TotalMaterialsSnoc(setups[1..], k - 1);
    }
  }

  function Description(data: Option<CopiedMaterialData>): string
  {
    if !HasData(data) then "No data copied"
    else
      "Copied from '" + data.value.sourceRootName + "': " + NatToString(|data.value.materialSetups|)
        + " objects, " + NatToString(TotalMaterials(data.value.materialSetups)) + " materials"
  }

  /** MaterialSwapHelperSession: the static copy buffer, as an object. */
  class MaterialSwapHelperSession {
    var copiedData: Option<CopiedMaterialData>

    constructor()
      ensures copiedData.None?
    {
      copiedData := None;
    }

    predicate HasCopiedData()
      reads this
    {
      HasData(copiedData)
    }

    method StoreCopiedData(data: Option<CopiedMaterialData>)
      modifies this
      ensures copiedData == data
      ensures HasCopiedData() <==> data.Some? && |data.value.materialSetups| > 0
    {
      copiedData := data;
    }

    method ClearCopiedData()
      modifies this
      ensures copiedData.None? && !HasCopiedData()
    {
      copiedData := None;
    }

    method GetCopiedDataDescription() returns (text: string)
      ensures text == Description(copiedData)
      ensures !HasCopiedData() ==> text == "No data copied"
    {
      if !HasCopiedData() {
        return "No data copied";
      }
      var setups := copiedData.value.materialSetups;
      var totalMaterials: nat := 0;
      for i := 0 to |setups|
        invariant totalMaterials == TotalMaterials(setups[..i])
      {
        TotalMaterialsSnoc(setups, i);
        totalMaterials := totalMaterials + |setups[i].materials|;
      }
      assert setups[..|setups|] == setups;
      text := "Copied from '" + copiedData.value.sourceRootName + "': " + NatToString(|setups|)
        + " objects, " + NatToString(totalMaterials) + " materials";
    }
  }
}
