/**
 * MaterialSwapGenerator of the Modular Avatar material helper: one colour
 * variation under the Color Menu per copied group, each carrying the
 * MaterialSwap components planned from the objects the matcher finds.
 *
 * The copied groups are read from the session buffer; the clean-up and
 * the naming follow `Generation.Assemble`. The outcome lemmas are stated
 * over the groups' entries (`GroupMatching.EntryGroups` gives them for a
 * target), so that they hold whatever the matcher picked.
 */
module MASwapGenerator {
  import opened Collections
  import opened Text
  import opened Scene
  import opened ObjectMatcher
  import opened MaterialSetup
  import opened ColorNumbering
  import opened Generation
  import opened SwapPlanning
  import opened GroupMatching

  /** What one group yields: the planned components (or the per-object ones) and one match per slot pair. */
  function SwapResult(entries: seq<Entry>, perObject: bool): GroupResult
  {
    if perObject then GroupResult(PerObjectRecords(entries), PairCount(entries))
    else GroupResult(PlanRecords(GroupMappings(entries)), PairCount(entries))
  }

  function SwapResultOf(perObject: bool): seq<Entry> -> GroupResult
  {
    entries => SwapResult(entries, perObject)
  }

  /** The results of the groups, in order. */
  function SwapResults(entryGroups: seq<seq<Entry>>, perObject: bool): (r: seq<GroupResult>)
    ensures |r| == |entryGroups|
    ensures forall k :: 0 <= k < |entryGroups| ==> r[k] == SwapResult(entryGroups[k], perObject)
  {
    Map(entryGroups, SwapResultOf(perObject))
  }

  function SwapMessage(isNewMenu: bool, start: nat, count: nat, perObject: bool): string
  {
    if perObject then PerObjectMessage(isNewMenu, count) else RangeMessage(isNewMenu, start, count, "color variations")
  }

  /** What a call does on `root` once validation passed, given the matches of every group. */
  function SwapOutcome(root: GameObject, entryGroups: seq<seq<Entry>>, perObject: bool): Generated
  {
    var start := NextColorNumber(MenuChildNames(root));
    Assemble(IsNewMenu(root), start, SwapResults(entryGroups, perObject), SwapMessage(IsNewMenu(root), start, |entryGroups|, perObject))
  }

  /**
   * A whole CreateMaterialSwap (or, with `perObject`, CreateMaterialSwapPerObject)
   * call on the target `targetRoot` with the groups the session holds.
   */
  function SwapGeneration(maInstalled: bool, targetRoot: Option<GameObject>, copiedData: Option<CopiedMaterialData>,
                          groups: seq<seq<MaterialSetupData>>, perObject: bool): Generated
  {
    match ValidateParameters(maInstalled, targetRoot.Some?, copiedData.Some?)
    case Some(failure) => Generated(failure, false, [])
    case None => SwapOutcome(targetRoot.value, EntryGroups(targetRoot.value, groups), perObject)
  }

  /** One more group appends its result. */
  lemma SwapResultsSnoc(entryGroups: seq<seq<Entry>>, entries: seq<Entry>, perObject: bool)
    ensures SwapResults(entryGroups + [entries], perObject) == SwapResults(entryGroups, perObject) + [SwapResult(entries, perObject)]
  {
    MapPrefixSnoc(entryGroups + [entries], |entryGroups|, SwapResultOf(perObject));
    assert (entryGroups + [entries])[..|entryGroups|] == entryGroups;
    assert (entryGroups + [entries])[..|entryGroups| + 1] == entryGroups + [entries];
  }

  /**
   * The group loop of both modes: variation Color(start + k) for group k,
   * holding what the group's setup emitted, and the sum of the groups'
   * match counts.
   */
  method CreateColorVariations(root: GameObject, groups: seq<seq<MaterialSetupData>>, startingColorNumber: nat, perObject: bool)
    returns (createdVariations: seq<Variation>, totalSuccessfulMatches: nat)
    ensures createdVariations == VariationsOf(startingColorNumber, SwapResults(EntryGroups(root, groups), perObject))
    ensures totalSuccessfulMatches == TotalMatches(SwapResults(EntryGroups(root, groups), perObject))
  {
    createdVariations := [];
    totalSuccessfulMatches := 0;
    ghost var entryGroups: seq<seq<Entry>> := [];
    for groupIndex := 0 to |groups|
      invariant entryGroups == EntryGroups(root, groups[..groupIndex])
      invariant createdVariations == VariationsOf(startingColorNumber, SwapResults(entryGroups, perObject))
      invariant totalSuccessfulMatches == TotalMatches(SwapResults(entryGroups, perObject))
    {
      var entries := EntriesOf(root, groups[groupIndex]);
      var records, groupMatches;
      if perObject {
        records, groupMatches := SetupMaterialSwapsPerObjectForGroup(entries);
      } else {
        records, groupMatches := SetupMaterialSwapsForGroup(entries);
      }
      ghost var results := SwapResults(entryGroups, perObject);
      var colorVariation := VariationOf(startingColorNumber, groupIndex, GroupResult(records, groupMatches));
      SwapResultsSnoc(entryGroups, entries, perObject);
      VariationsSnoc(startingColorNumber, results, GroupResult(records, groupMatches));
      TotalMatchesSnoc(results, GroupResult(records, groupMatches));
      MapPrefixSnoc(groups, groupIndex, EntriesOfGroup(root));
      createdVariations := createdVariations + [colorVariation];
      totalSuccessfulMatches := totalSuccessfulMatches + groupMatches;
      entryGroups := entryGroups + [entries];
    }
    assert groups[..|groups|] == groups;
  }

  /** CreateMaterialSwap: validation, the menu, then one variation per group numbered from the first free number. */
  method CreateMaterialSwap(maInstalled: bool, targetRoot: Option<GameObject>, copiedData: Option<CopiedMaterialData>,
                            session: MAMaterialHelperSession)
    returns (g: Generated)
    ensures g == SwapGeneration(maInstalled, targetRoot, copiedData, Groups(session.copiedData), false)
  {
    var validation := ValidateParameters(maInstalled, targetRoot.Some?, copiedData.Some?);
    if validation.Some? {
      return Generated(validation.value, false, []);
    }
    var root := targetRoot.value;
    var isNewMenu := FindChild(root, ColorMenuName).None?;
    var groups := session.GetCopiedDataGroups();
    if |groups| == 0 {
      return Generated(Failure("No material setup groups found"), isNewMenu, []);
    }
    var startingColorNumber := DetermineNextColorNumber(MenuChildNames(root));
    var createdVariations, totalSuccessfulMatches := CreateColorVariations(root, groups, startingColorNumber, false);
    if totalSuccessfulMatches == 0 {
      return Generated(Failure("No matching objects found between source and target"), false, []);
    }
    var resultMessage := SwapMessage(isNewMenu, startingColorNumber, |groups|, false);
    g := Generated(GenerationResult(true, resultMessage, Some(createdVariations[0])), isNewMenu, createdVariations);
  }

  /** CreateMaterialSwapPerObject: as CreateMaterialSwap, with one component per matched object. */
  method CreateMaterialSwapPerObject(maInstalled: bool, targetRoot: Option<GameObject>, copiedData: Option<CopiedMaterialData>,
                                     session: MAMaterialHelperSession)
    returns (g: Generated)
    ensures g == SwapGeneration(maInstalled, targetRoot, copiedData, Groups(session.copiedData), true)
  {
    var validation := ValidateParameters(maInstalled, targetRoot.Some?, copiedData.Some?);
    if validation.Some? {
      return Generated(validation.value, false, []);
    }
    var root := targetRoot.value;
    var isNewMenu := FindChild(root, ColorMenuName).None?;
    var groups := session.GetCopiedDataGroups();
    if |groups| == 0 {
      return Generated(Failure("No material setup groups found"), isNewMenu, []);
    }
    var startingColorNumber := DetermineNextColorNumber(MenuChildNames(root));
    var createdVariations, totalSuccessfulMatches := CreateColorVariations(root, groups, startingColorNumber, true);
    if totalSuccessfulMatches == 0 {
      return Generated(Failure("No matching objects found between source and target"), false, []);
    }
    var resultMessage := SwapMessage(isNewMenu, startingColorNumber, |groups|, true);
    g := Generated(GenerationResult(true, resultMessage, Some(createdVariations[0])), isNewMenu, createdVariations);
  }

  // ---------------------------------------------------------------------
  // What a call promises

  /**
   * Validation first: without Modular Avatar, or without a target or
   * copied data, the call fails and leaves nothing; otherwise its outcome
   * is that of the groups' matches on the target.
   */
  lemma SwapGenerationValidation(maInstalled: bool, targetRoot: Option<GameObject>, copiedData: Option<CopiedMaterialData>,
                                 groups: seq<seq<MaterialSetupData>>, perObject: bool)
    ensures var g := SwapGeneration(maInstalled, targetRoot, copiedData, groups, perObject);
      && (!maInstalled ==> g == Generated(Failure("Modular Avatar is not installed"), false, []))
      && (maInstalled && (targetRoot.None? || copiedData.None?) ==> g == Generated(Failure("Invalid parameters"), false, []))
      && (maInstalled && targetRoot.Some? && copiedData.Some? ==>
            g == SwapOutcome(targetRoot.value, EntryGroups(targetRoot.value, groups), perObject))
  {
  }

  /** Without groups the call fails, and a Color Menu it had to create is left in place. */
  lemma SwapOutcomeNoGroups(root: GameObject, perObject: bool)
    ensures var g := SwapOutcome(root, [], perObject);
      g.result == Failure("No material setup groups found") && g.menuCreated == IsNewMenu(root) && g.variations == []
  {
  }

  /** Once validation passed, a call succeeds exactly when there is a group and some group forms a slot pair. */
  lemma SwapOutcomeSuccess(root: GameObject, entryGroups: seq<seq<Entry>>, perObject: bool)
    ensures SwapOutcome(root, entryGroups, perObject).result.success <==>
      |entryGroups| > 0 && exists k :: 0 <= k < |entryGroups| && PairCount(entryGroups[k]) > 0
  {
    var start := NextColorNumber(MenuChildNames(root));
    var results := SwapResults(entryGroups, perObject);
    AssembleSuccess(IsNewMenu(root), start, results, SwapMessage(IsNewMenu(root), start, |entryGroups|, perObject));
    assert forall k :: 0 <= k < |entryGroups| ==> results[k].matches == PairCount(entryGroups[k]);
  }

  /** With groups but no slot pair anywhere, every variation and a new menu are removed and the call fails. */
  lemma SwapOutcomeCleansUp(root: GameObject, entryGroups: seq<seq<Entry>>, perObject: bool)
    requires |entryGroups| > 0
    requires forall k :: 0 <= k < |entryGroups| ==> PairCount(entryGroups[k]) == 0
    ensures var g := SwapOutcome(root, entryGroups, perObject);
      g.result == Failure("No matching objects found between source and target") && !g.menuCreated && g.variations == []
  {
    var start := NextColorNumber(MenuChildNames(root));
    AssembleCleansUp(IsNewMenu(root), start, SwapResults(entryGroups, perObject), SwapMessage(IsNewMenu(root), start, |entryGroups|, perObject));
  }

  /**
   * On success group `k` becomes the variation Color(start + k), start
   * being the smallest number no child of the menu takes, carrying the
   * components planned for that group; the first variation is reported,
   * and a menu is left only when the call created it.
   */
  lemma SwapOutcomeVariations(root: GameObject, entryGroups: seq<seq<Entry>>, perObject: bool)
    requires SwapOutcome(root, entryGroups, perObject).result.success
    ensures var g := SwapOutcome(root, entryGroups, perObject);
      var start := NextColorNumber(MenuChildNames(root));
      |g.variations| == |entryGroups| && g.menuCreated == IsNewMenu(root)
      && g.result.createdObject == Some(g.variations[0])
      && g.result.message == SwapMessage(IsNewMenu(root), start, |entryGroups|, perObject)
      && forall k :: 0 <= k < |entryGroups| ==>
           g.variations[k].name == ColorPrefix + NatToString(start + k)
           && g.variations[k].colorNumber == start + k
           && g.variations[k].records == (if perObject then PerObjectRecords(entryGroups[k])
                                          else PlanRecords(GroupMappings(entryGroups[k])))
  {
    var start := NextColorNumber(MenuChildNames(root));
    AssembleVariations(IsNewMenu(root), start, SwapResults(entryGroups, perObject), SwapMessage(IsNewMenu(root), start, |entryGroups|, perObject));
  }
}
