/**
 * The MaterialSwapGenerator of the original Material Swap Helper.
 *
 * Its per-group planning (the conflict table, the main component, the
 * per-object components) and its control flow are the same as in the
 * Modular Avatar swap generator, so the outcome is
 * `MASwapGenerator.SwapOutcome` over entries found by this generator's
 * own, simpler matcher: the first node in pre-order with exactly the
 * name, else the first whose cleaned name equals the cleaned name. The
 * matcher does not require a Renderer; a match without one contributes
 * nothing.
 *
 * The copied groups are a parameter: the session of this helper has no
 * operation that splits its data into groups.
 */
module LegacySwapGenerator {
  import opened Collections
  import opened Text
  import opened Scene
  import opened Generation
  import opened SwapPlanning
  import ColorNumbering
  import SwapHelperData
  import MASwapGenerator

  // ---------------------------------------------------------------------
  // CleanObjectName

  /**
   * `Regex.Replace(name, "<mark>\d+$", "")`: the trailing run of digits
   * and the `mark` just before it are removed. `$` also matches before a
   * final newline, which is then kept. The run is the whole trailing
   * digit run, so at most one such suffix goes.
   */
  function StripNumberSuffix(name: string, mark: char): (r: string)
    requires !IsDigit(mark) && mark != '\n'
    ensures |r| <= |name|
  {
    var body := if |name| > 0 && name[|name| - 1] == '\n' then name[..|name| - 1] else name;
    var k := TrailingDigits(body);
    if 0 < k < |body| && body[|body| - k - 1] == mark then body[..|body| - k - 1] + name[|body|..] else name
  }

  /** A run of digits after a non-digit is exactly the trailing digit run. */
  lemma {:induction false} TrailingDigitsOf(base: string, mark: char, d: string)
    requires !IsDigit(mark) && |d| > 0 && AllDigits(d)
    ensures TrailingDigits(base + [mark] + d) == |d|
    decreases |d|
  {
    var s := base + [mark] + d;
    assert s[..|s| - 1] == base + [mark] + d[..|d| - 1];
    assert s[|s| - 1] == d[|d| - 1];
    if |d| > 1 {
      TrailingDigitsOf(base, mark, d[..|d| - 1]);
    }
  }

  /** Exactly one suffix `<mark><digits>` is removed, before or without a final newline. */
  lemma StripNumberSuffixOf(base: string, mark: char, d: string)
    requires !IsDigit(mark) && mark != '\n' && |d| > 0 && AllDigits(d)
    ensures StripNumberSuffix(base + [mark] + d, mark) == base
    ensures StripNumberSuffix(base + [mark] + d + "\n", mark) == base + "\n"
  {
    var s := base + [mark] + d;
    TrailingDigitsOf(base, mark, d);
    assert s[|s| - |d| - 1] == mark;
    assert s[..|s| - |d| - 1] == base;
    assert s[|s| - 1] == d[|d| - 1];
    assert (s + "\n")[..|s|] == s;
    assert (s + "\n")[|s|..] == "\n";
    assert s[|s|..] == "";
  }

  /** The name with one ".<digits>" suffix and then one "_<digits>" suffix removed. */
  function StrippedName(name: string): (r: string)
    ensures |r| <= |name|
  {
    StripNumberSuffix(StripNumberSuffix(name, '.'), '_')
  }

  /** CleanObjectName: the stripped name, without its first '_'-separated part when it has one. */
  function CleanObjectName(name: string): string
  {
    var stripped := StrippedName(name);
    if '_' in stripped then
      var parts := Split(stripped, '_');
      if |parts| > 1 then Join(parts[1..], '_') else stripped
    else stripped
  }

  /** Both suffixes go, ".<digits>" first: `base_<d2>.<d1>` strips to `base`. */
  lemma StrippedNameOf(base: string, d1: string, d2: string)
    requires |d1| > 0 && AllDigits(d1) && |d2| > 0 && AllDigits(d2)
    ensures StrippedName(base + "_" + d2 + "." + d1) == base
    ensures StrippedName(base + "." + d1) == StripNumberSuffix(base, '_')
    ensures StrippedName(base + "_" + d2) == base
  {
    StripNumberSuffixOf(base + "_" + d2, '.', d1);
    StripNumberSuffixOf(base, '_', d2);
    StripNumberSuffixOf(base, '.', d1);
    assert base + "_" + d2 == base + ['_'] + d2;
    assert base + "." + d1 == base + ['.'] + d1;
    assert base + "_" + d2 + "." + d1 == (base + "_" + d2) + ['.'] + d1;
    if StripNumberSuffix(base + "_" + d2, '.') != base + "_" + d2 {
      TrailingDigitsOf(base, '_', d2);
    }
  }

  /** When the stripped name has a '_', the cleaned name is everything after the first one. */
  lemma CleanObjectNameAfterFirst(name: string, i: nat)
    requires i < |StrippedName(name)| && StrippedName(name)[i] == '_' && '_' !in StrippedName(name)[..i]
    ensures CleanObjectName(name) == StrippedName(name)[i + 1..]
  {
    SplitAfterFirst(StrippedName(name), '_', i);
  }

  /** Without a '_' the cleaned name is the stripped name. */
  lemma CleanObjectNameNoUnderscore(name: string)
    requires '_' !in StrippedName(name)
    ensures CleanObjectName(name) == StrippedName(name)
  {
  }

  // ---------------------------------------------------------------------
  // FindMatchingObject

  predicate NameAt(root: GameObject, p: Pos, name: string)
  {
    ValidPos(root, p) && At(root, p).name == name
  }

  predicate CleanNameAt(root: GameObject, p: Pos, name: string)
  {
    ValidPos(root, p) && CleanObjectName(At(root, p).name) == CleanObjectName(name)
  }

  /**
   * FindMatchingObject: the first node of the subtree in pre-order (the
   * root included) named exactly `objectName`; failing that the first
   * whose cleaned name equals the cleaned `objectName`.
   */
  function FindMatchingObject(root: GameObject, objectName: string): (r: Option<Pos>)
    ensures r.Some? ==> ValidPos(root, r.value)
    ensures r.Some? ==> NameAt(root, r.value, objectName) || CleanNameAt(root, r.value, objectName)
  {
    var nodes := PreOrder(root);
    match FirstIndex(nodes, p => NameAt(root, p, objectName))
    case Some(i) => Some(nodes[i])
    case None =>
      match FirstIndex(nodes, p => CleanNameAt(root, p, objectName))
      case Some(i) => Some(nodes[i])
      case None => None
  }

  /** The first node in pre-order with exactly the name is the one found. */
  lemma FindMatchingObjectExact(root: GameObject, objectName: string, i: nat)
    requires i < |PreOrder(root)| && NameAt(root, PreOrder(root)[i], objectName)
    requires forall j :: 0 <= j < i ==> !NameAt(root, PreOrder(root)[j], objectName)
    ensures FindMatchingObject(root, objectName) == Some(PreOrder(root)[i])
  {
    var nodes := PreOrder(root);
    var first := FirstIndex(nodes, p => NameAt(root, p, objectName));
    assert first.Some?;
  }

  /** With no exact name anywhere, the first node in pre-order with the same cleaned name is found. */
  lemma FindMatchingObjectCleaned(root: GameObject, objectName: string, i: nat)
    requires forall j :: 0 <= j < |PreOrder(root)| ==> !NameAt(root, PreOrder(root)[j], objectName)
    requires i < |PreOrder(root)| && CleanNameAt(root, PreOrder(root)[i], objectName)
    requires forall j :: 0 <= j < i ==> !CleanNameAt(root, PreOrder(root)[j], objectName)
    ensures FindMatchingObject(root, objectName) == Some(PreOrder(root)[i])
  {
    var nodes := PreOrder(root);
    var exact := FirstIndex(nodes, p => NameAt(root, p, objectName));
    assert exact.None?;
    var first := FirstIndex(nodes, p => CleanNameAt(root, p, objectName));
    assert first.Some?;
  }

  /** Nothing is found exactly when no node matches by name or by cleaned name. */
  lemma FindMatchingObjectNone(root: GameObject, objectName: string)
    ensures FindMatchingObject(root, objectName).None? <==>
      forall p :: ValidPos(root, p) ==> !NameAt(root, p, objectName) && !CleanNameAt(root, p, objectName)
  {
    var nodes := PreOrder(root);
    if FindMatchingObject(root, objectName).None? {
      forall p | ValidPos(root, p)
        ensures !NameAt(root, p, objectName) && !CleanNameAt(root, p, objectName)
      {
        PreOrderValid(root, p);
        var j :| 0 <= j < |nodes| && nodes[j] == p;
        assert !NameAt(root, nodes[j], objectName);
        assert !CleanNameAt(root, nodes[j], objectName);
      }
    }
  }

  /** A node with exactly the name anywhere means the node found has exactly that name. */
  lemma FindMatchingObjectPrefersExact(root: GameObject, objectName: string, p: Pos)
    requires NameAt(root, p, objectName)
    ensures var r := FindMatchingObject(root, objectName); r.Some? && NameAt(root, r.value, objectName)
  {
    var nodes := PreOrder(root);
    PreOrderValid(root, p);
    var j :| 0 <= j < |nodes| && nodes[j] == p;
    var exact := FirstIndex(nodes, q => NameAt(root, q, objectName));
    assert NameAt(root, nodes[j], objectName);
    assert exact.Some?;
  }

  // ---------------------------------------------------------------------
  // The groups on the target

  /** One copied setup on the target: the node found and its Renderer's slots; a node without a Renderer is skipped. */
  function EntryOf(root: GameObject, s: SwapHelperData.MaterialSetupData): Entry
  {
    match FindMatchingObject(root, s.objectName)
    case None => Entry(None, s.materials)
    case Some(p) =>
      if At(root, p).renderer.None? then Entry(None, s.materials)
      else Entry(Some(Matched(p, At(root, p).renderer.value.sharedMaterials)), s.materials)
  }

  /** An entry is matched exactly when the node found carries a Renderer, and then holds that node's slots. */
  lemma EntryOfMatch(root: GameObject, s: SwapHelperData.MaterialSetupData)
    ensures EntryOf(root, s).source == s.materials
    ensures var m := FindMatchingObject(root, s.objectName);
      (EntryOf(root, s).matched.Some? <==> m.Some? && At(root, m.value).renderer.Some?)
      && (EntryOf(root, s).matched.Some? ==>
            EntryOf(root, s).matched.value.target == m.value
            && EntryOf(root, s).matched.value.current == At(root, m.value).renderer.value.sharedMaterials)
  {
  }

  function EntriesOf(root: GameObject, group: seq<SwapHelperData.MaterialSetupData>): (es: seq<Entry>)
    ensures |es| == |group|
    ensures forall i :: 0 <= i < |group| ==> es[i] == EntryOf(root, group[i])
  {
    Map(group, s => EntryOf(root, s))
  }

  function EntriesOfGroup(root: GameObject): seq<SwapHelperData.MaterialSetupData> -> seq<Entry>
  {
    group => EntriesOf(root, group)
  }

  function EntryGroups(root: GameObject, groups: seq<seq<SwapHelperData.MaterialSetupData>>): (r: seq<seq<Entry>>)
    ensures |r| == |groups|
    ensures forall k :: 0 <= k < |groups| ==> r[k] == EntriesOf(root, groups[k])
  {
    Map(groups, EntriesOfGroup(root))
  }

  // ---------------------------------------------------------------------
  // The two create operations

  /** A whole CreateMaterialSwap (or, with `perObject`, CreateMaterialSwapPerObject) call. */
  function SwapGeneration(maInstalled: bool, targetRoot: Option<GameObject>,
                          copiedData: Option<SwapHelperData.CopiedMaterialData>,
                          groups: seq<seq<SwapHelperData.MaterialSetupData>>, perObject: bool): Generated
  {
    match ValidateParameters(maInstalled, targetRoot.Some?, copiedData.Some?)
    case Some(failure) => Generated(failure, false, [])
    case None => MASwapGenerator.SwapOutcome(targetRoot.value, EntryGroups(targetRoot.value, groups), perObject)
  }

  /** The group loop, over the entries this generator's matcher finds. */
  method CreateColorVariations(root: GameObject, groups: seq<seq<SwapHelperData.MaterialSetupData>>,
                               startingColorNumber: nat, perObject: bool)
    returns (createdVariations: seq<Variation>, totalSuccessfulMatches: nat)
    ensures createdVariations ==
      VariationsOf(startingColorNumber, MASwapGenerator.SwapResults(EntryGroups(root, groups), perObject))
    ensures totalSuccessfulMatches == TotalMatches(MASwapGenerator.SwapResults(EntryGroups(root, groups), perObject))
  {
    createdVariations := [];
    totalSuccessfulMatches := 0;
    ghost var entryGroups: seq<seq<Entry>> := [];
    for groupIndex := 0 to |groups|
      invariant entryGroups == EntryGroups(root, groups[..groupIndex])
      invariant createdVariations == VariationsOf(startingColorNumber, MASwapGenerator.SwapResults(entryGroups, perObject))
      invariant totalSuccessfulMatches == TotalMatches(MASwapGenerator.SwapResults(entryGroups, perObject))
    {
      var entries := EntriesOf(root, groups[groupIndex]);
      var records, groupMatches;
      if perObject {
        records, groupMatches := SetupMaterialSwapsPerObjectForGroup(entries);
      } else {
        records, groupMatches := SetupMaterialSwapsForGroup(entries);
      }
      ghost var results := MASwapGenerator.SwapResults(entryGroups, perObject);
      var colorVariation := VariationOf(startingColorNumber, groupIndex, GroupResult(records, groupMatches));
      MASwapGenerator.SwapResultsSnoc(entryGroups, entries, perObject);
      VariationsSnoc(startingColorNumber, results, GroupResult(records, groupMatches));
      TotalMatchesSnoc(results, GroupResult(records, groupMatches));
      MapPrefixSnoc(groups, groupIndex, EntriesOfGroup(root));
      createdVariations := createdVariations + [colorVariation];
      totalSuccessfulMatches := totalSuccessfulMatches + groupMatches;
      entryGroups := entryGroups + [entries];
    }
    assert groups[..|groups|] == groups;
  }

  /** CreateMaterialSwap and CreateMaterialSwapPerObject: validation, the menu, numbering, the groups, clean-up. */
  method CreateMaterialSwap(maInstalled: bool, targetRoot: Option<GameObject>,
                            copiedData: Option<SwapHelperData.CopiedMaterialData>,
                            groups: seq<seq<SwapHelperData.MaterialSetupData>>, perObject: bool)
    returns (g: Generated)
    ensures g == SwapGeneration(maInstalled, targetRoot, copiedData, groups, perObject)
  {
    var validation := ValidateParameters(maInstalled, targetRoot.Some?, copiedData.Some?);
    if validation.Some? {
      return Generated(validation.value, false, []);
    }
    var root := targetRoot.value;
    var isNewMenu := FindChild(root, ColorMenuName).None?;
    if |groups| == 0 {
      return Generated(Failure("No material setup groups found"), isNewMenu, []);
    }
    var startingColorNumber := ColorNumbering.DetermineNextColorNumber(MenuChildNames(root));
    var createdVariations, totalSuccessfulMatches := CreateColorVariations(root, groups, startingColorNumber, perObject);
    if totalSuccessfulMatches == 0 {
      return Generated(Failure("No matching objects found between source and target"), false, []);
    }
    var resultMessage := MASwapGenerator.SwapMessage(isNewMenu, startingColorNumber, |groups|, perObject);
    g := Generated(GenerationResult(true, resultMessage, Some(createdVariations[0])), isNewMenu, createdVariations);
  }

  /** Validation first; once it passes, the outcome is the shared swap outcome over this matcher's entries. */
  lemma SwapGenerationValidation(maInstalled: bool, targetRoot: Option<GameObject>,
                                 copiedData: Option<SwapHelperData.CopiedMaterialData>,
                                 groups: seq<seq<SwapHelperData.MaterialSetupData>>, perObject: bool)
    ensures var g := SwapGeneration(maInstalled, targetRoot, copiedData, groups, perObject);
      && (!maInstalled ==> g == Generated(Failure("Modular Avatar is not installed"), false, []))
      && (maInstalled && (targetRoot.None? || copiedData.None?) ==> g == Generated(Failure("Invalid parameters"), false, []))
      && (maInstalled && targetRoot.Some? && copiedData.Some? ==>
            g == MASwapGenerator.SwapOutcome(targetRoot.value, EntryGroups(targetRoot.value, groups), perObject))
  {
  }
}
