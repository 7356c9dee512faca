/**
 * MaterialSetterGenerator of the Modular Avatar material helper: one
 * colour variation per copied group, each carrying one Material Setter
 * per matched object that lists the copied materials of its slots.
 *
 * The control flow (validation, Color Menu, numbering, clean-up) is the
 * swap generator's; only the per-group setup differs.
 */
module MASetterGenerator {
  import opened Collections
  import opened Text
  import opened Scene
  import opened MaterialSetup
  import opened ColorNumbering
  import opened Generation
  import opened SwapPlanning
  import opened GroupMatching

  // ---------------------------------------------------------------------
  // The setter list of one object

  /** The slots below `n` whose copied material is non-null, in slot order. */
  function SetterSlots(source: seq<Option<MaterialId>>, n: nat): (slots: seq<nat>)
    requires n <= |source|
    ensures forall i :: 0 <= i < |slots| ==> slots[i] < n && source[slots[i]].Some?
    ensures forall i, j :: 0 <= i < j < |slots| ==> slots[i] < slots[j]
    ensures forall j :: 0 <= j < n && source[j].Some? ==> j in slots
  {
    if n == 0 then []
    else SetterSlots(source, n - 1) + (if source[n - 1].Some? then [n - 1] else [])
  }

  /** The materials the slot loop collects from the first `n` copied slots: the non-null ones. */
  function SetterMaterials(source: seq<Option<MaterialId>>, n: nat): seq<MaterialId>
    requires n <= |source|
  {
    if n == 0 then []
    else SetterMaterials(source, n - 1) + (if source[n - 1].Some? then [source[n - 1].value] else [])
  }

  /** The list holds, in order, the copied material of every non-null slot below the bound, and nothing else. */
  lemma {:induction false} SetterMaterialsSlots(source: seq<Option<MaterialId>>, n: nat)
    requires n <= |source|
    ensures |SetterMaterials(source, n)| == |SetterSlots(source, n)|
    ensures forall i :: 0 <= i < |SetterSlots(source, n)| ==>
      SetterMaterials(source, n)[i] == source[SetterSlots(source, n)[i]].value
  {
    if n > 0 {
      SetterMaterialsSlots(source, n - 1);
    }
  }

  /** The list is empty exactly when every copied slot below the bound is null. */
  lemma SetterMaterialsEmpty(source: seq<Option<MaterialId>>, n: nat)
    requires n <= |source|
    ensures |SetterMaterials(source, n)| == 0 <==> forall j :: 0 <= j < n ==> source[j].None?
  {
    SetterMaterialsSlots(source, n);
    if |SetterSlots(source, n)| > 0 {
      assert source[SetterSlots(source, n)[0]].Some?;
    }
  }

  /** The list of an entry: only a matched object has one, bounded by the smaller slot count. */
  function EntrySetterMaterials(e: Entry): seq<MaterialId>
  {
    if e.matched.None? then [] else SetterMaterials(e.source, Min(|e.matched.value.current|, |e.source|))
  }

  /** The i-th switch object of a setter on `target`: the i-th material, at material index i. */
  function SwitchObjectsOf(target: Pos, materials: seq<MaterialId>): seq<SwitchObject>
  {
    seq(|materials|, i requires 0 <= i < |materials| => SwitchObject(target, materials[i], i))
  }

  /**
   * AddMaterialSetterComponent: one Material Setter whose i-th object is
   * the target with the i-th listed material at material index i, the
   * position in the compacted list and not the slot it came from.
   */
  method AddMaterialSetterComponent(target: Pos, materials: seq<MaterialId>) returns (setter: Emitted)
    ensures setter == AddMaterialSetter(target, SwitchObjectsOf(target, materials))
    ensures |setter.objects| == |materials|
    ensures forall i :: 0 <= i < |materials| ==> setter.objects[i] == SwitchObject(target, materials[i], i)
  {
    var objects: seq<SwitchObject> := [];
    for i := 0 to |materials|
      invariant |objects| == i
      invariant forall j :: 0 <= j < i ==> objects[j] == SwitchObject(target, materials[j], j)
    {
      objects := objects + [SwitchObject(target, materials[i], i)];
    }
    setter := AddMaterialSetter(target, objects);
  }

  /** A copied slot that is null shifts every later material one index down. */
  lemma NullSlotShiftsIndex(target: Pos, m: MaterialId)
    ensures SwitchObjectsOf(target, SetterMaterials([None, Some(m)], 2)) == [SwitchObject(target, m, 0)]
  {
    assert SetterMaterials([None, Some(m)], 1) == [];
  }

  /** Without null copied slots below the bound the index is the slot: slot j sets its own material. */
  lemma {:induction false} SetterMaterialsDense(source: seq<Option<MaterialId>>, n: nat)
    requires n <= |source|
    requires forall j :: 0 <= j < n ==> source[j].Some?
    ensures |SetterMaterials(source, n)| == n
    ensures forall j :: 0 <= j < n ==> SetterMaterials(source, n)[j] == source[j].value
  {
    if n > 0 {
      SetterMaterialsDense(source, n - 1);
    }
  }

  // ---------------------------------------------------------------------
  // One group

  /** `r` is the setter of entry `e`: a matched object with a non-empty list, and that list. */
  predicate SetterRecordOf(e: Entry, r: Emitted)
  {
    e.matched.Some? && |EntrySetterMaterials(e)| > 0
    && r == AddMaterialSetter(e.matched.value.target, SwitchObjectsOf(e.matched.value.target, EntrySetterMaterials(e)))
  }

  /** The setters a group adds, entry by entry. */
  function SetterRecords(entries: seq<Entry>): seq<Emitted>
  {
    if |entries| == 0 then []
    else
      var e := entries[|entries| - 1];
      SetterRecords(entries[..|entries| - 1])
      + (if e.matched.Some? && |EntrySetterMaterials(e)| > 0
         then [AddMaterialSetter(e.matched.value.target, SwitchObjectsOf(e.matched.value.target, EntrySetterMaterials(e)))]
         else [])
  }

  /** The group's match count: the length of every list that produced a setter. */
  function SetterCount(entries: seq<Entry>): nat
  {
    if |entries| == 0 then 0
    else
      var e := entries[|entries| - 1];
      SetterCount(entries[..|entries| - 1]) + (if e.matched.Some? && |EntrySetterMaterials(e)| > 0 then |EntrySetterMaterials(e)| else 0)
  }

  /** A setter exists exactly for a matched entry with a non-empty list, and carries that list. */
  lemma {:induction false} SetterRecordsMember(entries: seq<Entry>, r: Emitted)
    ensures r in SetterRecords(entries) <==> exists e :: e in entries && SetterRecordOf(e, r)
  {
    if |entries| > 0 {
      var init, last := entries[..|entries| - 1], entries[|entries| - 1];
      SetterRecordsMember(init, r);
      assert r in SetterRecords(entries) <==> r in SetterRecords(init) || SetterRecordOf(last, r);
      assert entries == init + [last];
      assert forall e :: e in entries <==> e in init || e == last;
    }
  }

  /** The number of switch objects over a sequence of setters. */
  function SwitchCount(records: seq<Emitted>): nat
  {
    if |records| == 0 then 0
    else SwitchCount(records[..|records| - 1])
         + (if records[|records| - 1].AddMaterialSetter? then |records[|records| - 1].objects| else 0)
  }

  lemma SwitchCountSnoc(records: seq<Emitted>, extra: seq<Emitted>)
    requires |extra| <= 1
    ensures SwitchCount(records + extra) == SwitchCount(records) + SwitchCount(extra)
  {
    if |extra| == 1 {
      assert (records + extra)[..|records|] == records;
      assert extra[..0] == [];
    } else {
      assert records + extra == records;
    }
  }

  /** The group's match count is the number of switch objects it emitted. */
  lemma {:induction false} SetterCountIsSwitchCount(entries: seq<Entry>)
    ensures SetterCount(entries) == SwitchCount(SetterRecords(entries))
  {
    if |entries| > 0 {
      var init, e := entries[..|entries| - 1], entries[|entries| - 1];
      SetterCountIsSwitchCount(init);
      var extra := if e.matched.Some? && |EntrySetterMaterials(e)| > 0
        then [AddMaterialSetter(e.matched.value.target, SwitchObjectsOf(e.matched.value.target, EntrySetterMaterials(e)))]
        else [];
      SwitchCountSnoc(SetterRecords(init), extra);
      if |extra| == 1 {
        assert extra[..0] == [];
      }
    }
  }

  /** `e` contributes a match: it is matched and has a non-null copied slot below the smaller slot count. */
  predicate HasSetterSlot(e: Entry)
  {
    e.matched.Some? && exists j :: 0 <= j < Min(|e.matched.value.current|, |e.source|) && e.source[j].Some?
  }

  /** A group matches something exactly when one of its entries has a setter slot. */
  lemma {:induction false} SetterCountPositive(entries: seq<Entry>)
    ensures SetterCount(entries) > 0 <==> exists k :: 0 <= k < |entries| && HasSetterSlot(entries[k])
  {
    if |entries| > 0 {
      var init, e := entries[..|entries| - 1], entries[|entries| - 1];
      SetterCountPositive(init);
      if e.matched.Some? {
        SetterMaterialsEmpty(e.source, Min(|e.matched.value.current|, |e.source|));
      }
      assert forall k :: 0 <= k < |init| ==> init[k] == entries[k];
    }
  }

  /**
   * SetupMaterialSettersForGroup: for every matched object the slot loop
   * collects the non-null copied materials; a non-empty list becomes a
   * setter and adds its length to the count.
   */
  method SetupMaterialSettersForGroup(entries: seq<Entry>) returns (records: seq<Emitted>, totalMatchCount: nat)
    ensures records == SetterRecords(entries)
    ensures totalMatchCount == SetterCount(entries)
  {
    records := [];
    totalMatchCount := 0;
    for k := 0 to |entries|
      invariant records == SetterRecords(entries[..k])
      invariant totalMatchCount == SetterCount(entries[..k])
    {
      assert entries[..k + 1][..k] == entries[..k];
      var sourceSetup := entries[k];
      if sourceSetup.matched.Some? {
        var currentMaterials := sourceSetup.matched.value.current;
        var maxSlots := Min(|currentMaterials|, |sourceSetup.source|);
        var materials: seq<MaterialId> := [];
        for i := 0 to maxSlots
          invariant materials == SetterMaterials(sourceSetup.source, i)
        {
          if sourceSetup.source[i].Some? {
            materials := materials + [sourceSetup.source[i].value];
          }
        }
        if |materials| > 0 {
          var setter := AddMaterialSetterComponent(sourceSetup.matched.value.target, materials);
          records := records + [setter];
          totalMatchCount := totalMatchCount + |materials|;
        }
      }
    }
    assert entries[..|entries|] == entries;
  }

  // ---------------------------------------------------------------------
  // A whole call

  /** What one group yields: its setters and their switch count. */
  function SetterResult(entries: seq<Entry>): GroupResult
  {
    GroupResult(SetterRecords(entries), SetterCount(entries))
  }

  /** The results of the groups, in order. */
  function SetterResults(entryGroups: seq<seq<Entry>>): (r: seq<GroupResult>)
    ensures |r| == |entryGroups|
    ensures forall k :: 0 <= k < |entryGroups| ==> r[k] == SetterResult(entryGroups[k])
  {
    Map(entryGroups, SetterResult)
  }

  function SetterMessage(isNewMenu: bool, start: nat, count: nat): string
  {
    RangeMessage(isNewMenu, start, count, "material setter variations")
  }

  /** What a call does on `root` once validation passed, given the matches of every group. */
  function SetterOutcome(root: GameObject, entryGroups: seq<seq<Entry>>): Generated
  {
    var start := NextColorNumber(MenuChildNames(root));
    Assemble(IsNewMenu(root), start, SetterResults(entryGroups), SetterMessage(IsNewMenu(root), start, |entryGroups|))
  }

  /** A whole CreateMaterialSetter call on the target `targetRoot` with the groups the session holds. */
  function SetterGeneration(maInstalled: bool, targetRoot: Option<GameObject>, copiedData: Option<CopiedMaterialData>,
                            groups: seq<seq<MaterialSetupData>>): Generated
  {
    match ValidateParameters(maInstalled, targetRoot.Some?, copiedData.Some?)
    case Some(failure) => Generated(failure, false, [])
    case None => SetterOutcome(targetRoot.value, EntryGroups(targetRoot.value, groups))
  }

  lemma SetterResultsSnoc(entryGroups: seq<seq<Entry>>, entries: seq<Entry>)
    ensures SetterResults(entryGroups + [entries]) == SetterResults(entryGroups) + [SetterResult(entries)]
  {
    MapPrefixSnoc(entryGroups + [entries], |entryGroups|, SetterResult);
    assert (entryGroups + [entries])[..|entryGroups|] == entryGroups;
    assert (entryGroups + [entries])[..|entryGroups| + 1] == entryGroups + [entries];
  }

  /** The group loop: variation Color(start + k) holds group k's setters; the counts add up. */
  method CreateSetterVariations(root: GameObject, groups: seq<seq<MaterialSetupData>>, startingColorNumber: nat)
    returns (createdVariations: seq<Variation>, totalSuccessfulMatches: nat)
    ensures createdVariations == VariationsOf(startingColorNumber, SetterResults(EntryGroups(root, groups)))
    ensures totalSuccessfulMatches == TotalMatches(SetterResults(EntryGroups(root, groups)))
  {
    createdVariations := [];
    totalSuccessfulMatches := 0;
    ghost var entryGroups: seq<seq<Entry>> := [];
    for groupIndex := 0 to |groups|
      invariant entryGroups == EntryGroups(root, groups[..groupIndex])
      invariant createdVariations == VariationsOf(startingColorNumber, SetterResults(entryGroups))
      invariant totalSuccessfulMatches == TotalMatches(SetterResults(entryGroups))
    {
      var entries := EntriesOf(root, groups[groupIndex]);
      var records, groupMatches := SetupMaterialSettersForGroup(entries);
      ghost var results := SetterResults(entryGroups);
      var colorVariation := VariationOf(startingColorNumber, groupIndex, GroupResult(records, groupMatches));
      SetterResultsSnoc(entryGroups, entries);
      VariationsSnoc(startingColorNumber, results, GroupResult(records, groupMatches));
      TotalMatchesSnoc(results, GroupResult(records, groupMatches));
      MapPrefixSnoc(groups, groupIndex, EntriesOfGroup(root));
      createdVariations := createdVariations + [colorVariation];
      totalSuccessfulMatches := totalSuccessfulMatches + groupMatches;
      entryGroups := entryGroups + [entries];
    }
    assert groups[..|groups|] == groups;
  }

  /** CreateMaterialSetter: validation, the menu, then one setter variation per group numbered from the first free number. */
  method CreateMaterialSetter(maInstalled: bool, targetRoot: Option<GameObject>, copiedData: Option<CopiedMaterialData>,
                              session: MAMaterialHelperSession)
    returns (g: Generated)
    ensures g == SetterGeneration(maInstalled, targetRoot, copiedData, Groups(session.copiedData))
  {
    var validation := ValidateParameters(maInstalled, targetRoot.Some?, copiedData.Some?);
    if validation.Some? {
      return Generated(validation.value, false, []);
    }
    var root := targetRoot.value;
    var isNewMenu := FindChild(root, ColorMenuName).None?;
    var groups := session.GetCopiedDataGroups();
    if |groups| == 0 {
      return Generated(Failure("No material setup groups found"), isNewMenu, []);
    }
    var startingColorNumber := DetermineNextColorNumber(MenuChildNames(root));
    var createdVariations, totalSuccessfulMatches := CreateSetterVariations(root, groups, startingColorNumber);
    if totalSuccessfulMatches == 0 {
      return Generated(Failure("No matching objects found between source and target"), false, []);
    }
    var resultMessage := SetterMessage(isNewMenu, startingColorNumber, |groups|);
    g := Generated(GenerationResult(true, resultMessage, Some(createdVariations[0])), isNewMenu, createdVariations);
  }

  // ---------------------------------------------------------------------
  // What a call promises

  /** Validation first: its failures leave nothing; otherwise the outcome is that of the groups' matches. */
  lemma SetterGenerationValidation(maInstalled: bool, targetRoot: Option<GameObject>, copiedData: Option<CopiedMaterialData>,
                                   groups: seq<seq<MaterialSetupData>>)
    ensures var g := SetterGeneration(maInstalled, targetRoot, copiedData, groups);
      && (!maInstalled ==> g == Generated(Failure("Modular Avatar is not installed"), false, []))
      && (maInstalled && (targetRoot.None? || copiedData.None?) ==> g == Generated(Failure("Invalid parameters"), false, []))
      && (maInstalled && targetRoot.Some? && copiedData.Some? ==>
            g == SetterOutcome(targetRoot.value, EntryGroups(targetRoot.value, groups)))
  {
  }

  /** Without groups the call fails, and a Color Menu it had to create is left in place. */
  lemma SetterOutcomeNoGroups(root: GameObject)
    ensures var g := SetterOutcome(root, []);
      g.result == Failure("No material setup groups found") && g.menuCreated == IsNewMenu(root) && g.variations == []
  {
  }

  /** Once validation passed, a call succeeds exactly when some entry of some group has a setter slot. */
  lemma SetterOutcomeSuccess(root: GameObject, entryGroups: seq<seq<Entry>>)
    ensures SetterOutcome(root, entryGroups).result.success <==>
      exists k, i :: 0 <= k < |entryGroups| && 0 <= i < |entryGroups[k]| && HasSetterSlot(entryGroups[k][i])
  {
    var start := NextColorNumber(MenuChildNames(root));
    var results := SetterResults(entryGroups);
    AssembleSuccess(IsNewMenu(root), start, results, SetterMessage(IsNewMenu(root), start, |entryGroups|));
    forall k | 0 <= k < |entryGroups|
      ensures results[k].matches > 0 <==> exists i :: 0 <= i < |entryGroups[k]| && HasSetterSlot(entryGroups[k][i])
    {
      SetterCountPositive(entryGroups[k]);
    }
  }

  /** With groups but no setter slot anywhere, every variation and a new menu are removed and the call fails. */
  lemma SetterOutcomeCleansUp(root: GameObject, entryGroups: seq<seq<Entry>>)
    requires |entryGroups| > 0
    requires forall k :: 0 <= k < |entryGroups| ==> SetterCount(entryGroups[k]) == 0
    ensures var g := SetterOutcome(root, entryGroups);
      g.result == Failure("No matching objects found between source and target") && !g.menuCreated && g.variations == []
  {
    var start := NextColorNumber(MenuChildNames(root));
    AssembleCleansUp(IsNewMenu(root), start, SetterResults(entryGroups), SetterMessage(IsNewMenu(root), start, |entryGroups|));
  }

  /**
   * On success group `k` becomes the variation Color(start + k) carrying
   * that group's setters; the first variation is reported, and a menu is
   * left only when the call created it.
   */
  lemma SetterOutcomeVariations(root: GameObject, entryGroups: seq<seq<Entry>>)
    requires SetterOutcome(root, entryGroups).result.success
    ensures var g := SetterOutcome(root, entryGroups);
      var start := NextColorNumber(MenuChildNames(root));
      |g.variations| == |entryGroups| && g.menuCreated == IsNewMenu(root)
      && g.result.createdObject == Some(g.variations[0])
      && g.result.message == SetterMessage(IsNewMenu(root), start, |entryGroups|)
      && forall k :: 0 <= k < |entryGroups| ==>
           g.variations[k].name == ColorPrefix + NatToString(start + k)
           && g.variations[k].colorNumber == start + k
           && g.variations[k].records == SetterRecords(entryGroups[k])
  {
    var start := NextColorNumber(MenuChildNames(root));
    AssembleVariations(IsNewMenu(root), start, SetterResults(entryGroups), SetterMessage(IsNewMenu(root), start, |entryGroups|));
  }
}
