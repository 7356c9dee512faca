/**
 * What the Modular Avatar generators produce, and the control flow they
 * share: parameter validation, the Color Menu lookup, one colour
 * variation per group numbered from the smallest free number, and the
 * clean-up when no object matched.
 *
 * Component writes through the Modular Avatar integration layer are
 * emitted records; a created GameObject is a `Variation` value holding
 * the records emitted for it.
 */
module Generation {
  import opened Collections
  import opened Text
  import opened Scene
  import opened ColorNumbering

  const ColorMenuName: string := "Color Menu"

  /** One (from, to) entry of a MaterialSwap component. */
  datatype Swap = Swap(from: MaterialId, to: MaterialId)

  /** One entry of a MaterialSetter component: the object, the material and the slot it sets. */
  datatype SwitchObject = SwitchObject(target: Pos, material: MaterialId, materialIndex: int)

  /** A call into the Modular Avatar integration layer. Positions are relative to the target root. */
  datatype Emitted =
    | SetupMaterialSwap(swaps: seq<Swap>)
    | AddMaterialSwapToObject(target: Pos, swaps: seq<Swap>)
    | AddMaterialSetter(target: Pos, objects: seq<SwitchObject>)

  /** A colour variation object: its name, the toggle value of its menu item, and what was emitted on it. */
  datatype Variation = Variation(name: string, colorNumber: int, records: seq<Emitted>)

  /** What the per-group setup returns: the records it emitted and its match count. */
  datatype GroupResult = GroupResult(records: seq<Emitted>, matches: nat)

  datatype GenerationResult = GenerationResult(success: bool, message: string, createdObject: Option<Variation>)

  /**
   * A whole generator call: its result, whether a newly created Color
   * Menu is left in the scene, and the variations left in the scene.
   */
  datatype Generated = Generated(result: GenerationResult, menuCreated: bool, variations: seq<Variation>)

  function Failure(message: string): GenerationResult
  {
    GenerationResult(false, message, None)
  }

  /**
   * ValidateParameters: without Modular Avatar every call fails; with it, a
   * missing target or missing data fails; `None` lets the call go on.
   */
  function ValidateParameters(maInstalled: bool, hasTarget: bool, hasData: bool): (r: Option<GenerationResult>)
    ensures r.None? <==> maInstalled && hasTarget && hasData
    ensures r.Some? ==> !r.value.success && r.value.createdObject.None?
    ensures !maInstalled ==> r == Some(Failure("Modular Avatar is not installed"))
    ensures maInstalled && !(hasTarget && hasData) ==> r == Some(Failure("Invalid parameters"))
  {
    if !maInstalled then Some(Failure("Modular Avatar is not installed"))
    else if !hasTarget || !hasData then Some(Failure("Invalid parameters"))
    else None
  }

  // ---------------------------------------------------------------------
  // The Color Menu

  /** `Transform.Find` with a plain name: the first direct child of that name. */
  function FindChild(t: GameObject, name: string): (r: Option<nat>)
    ensures r.Some? ==> r.value < |t.children| && t.children[r.value].name == name
    ensures r.Some? ==> forall j :: 0 <= j < r.value ==> t.children[j].name != name
    ensures r.None? ==> forall j :: 0 <= j < |t.children| ==> t.children[j].name != name
  {
    FindChildFrom(t, name, 0)
  }

  function FindChildFrom(t: GameObject, name: string, i: nat): (r: Option<nat>)
    requires forall j :: 0 <= j < i && j < |t.children| ==> t.children[j].name != name
    ensures r.Some? ==> i <= r.value < |t.children| && t.children[r.value].name == name
    ensures r.Some? ==> forall j :: 0 <= j < r.value ==> t.children[j].name != name
    ensures r.None? ==> forall j :: 0 <= j < |t.children| ==> t.children[j].name != name
    decreases |t.children| - i
  {
    if i >= |t.children| then None
    else if t.children[i].name == name then Some(i)
    else FindChildFrom(t, name, i + 1)
  }

  /** EnsureColorMenu creates a menu exactly when the target root has no child named "Color Menu". */
  predicate IsNewMenu(root: GameObject)
  {
    FindChild(root, ColorMenuName).None?
  }

  /** The names of the menu's children: a new menu has none. */
  function MenuChildNames(root: GameObject): (r: seq<string>)
    ensures IsNewMenu(root) ==> r == []
    ensures !IsNewMenu(root) ==> |r| == |root.children[FindChild(root, ColorMenuName).value].children|
  {
    match FindChild(root, ColorMenuName)
    case None => []
    case Some(i) => seq(|root.children[i].children|, j requires 0 <= j < |root.children[i].children| => root.children[i].children[j].name)
  }

  // ---------------------------------------------------------------------
  // Variations and the outcome

  /** The variation made for group `k`: named and valued Color(start + k). */
  function VariationOf(start: nat, k: nat, result: GroupResult): Variation
  {
    Variation(ColorPrefix + NatToString(start + k), start + k, result.records)
  }

  function VariationsOf(start: nat, results: seq<GroupResult>): (r: seq<Variation>)
    ensures |r| == |results|
    ensures forall k :: 0 <= k < |results| ==> r[k] == VariationOf(start, k, results[k])
  {
    seq(|results|, k requires 0 <= k < |results| => VariationOf(start, k, results[k]))
  }

  function TotalMatches(results: seq<GroupResult>): nat
  {
    if |results| == 0 then 0 else TotalMatches(results[..|results| - 1]) + results[|results| - 1].matches
  }

  /** The total is zero exactly when every group matched nothing. */
  lemma {:induction false} TotalMatchesZero(results: seq<GroupResult>)
    ensures TotalMatches(results) == 0 <==> forall k :: 0 <= k < |results| ==> results[k].matches == 0
  {
    if |results| > 0 {
      var init := results[..|results| - 1];
      TotalMatchesZero(init);
      assert forall k :: 0 <= k < |init| ==> init[k] == results[k];
    }
  }

  /** "(ColorS-ColorE)" for `count` variations numbered from `start`. */
  function RangeText(start: nat, count: nat): string
    requires count > 0
  {
    "(" + ColorPrefix + NatToString(start) + "-" + ColorPrefix + NatToString(start + count - 1) + ")"
  }

  /** One more group adds its matches to the total. */
  lemma TotalMatchesSnoc(results: seq<GroupResult>, r: GroupResult)
    ensures TotalMatches(results + [r]) == TotalMatches(results) + r.matches
  {
    assert (results + [r])[..|results|] == results;
  }

  /** One more group: one more variation, numbered next. */
  lemma VariationsSnoc(start: nat, results: seq<GroupResult>, r: GroupResult)
    ensures VariationsOf(start, results + [r]) == VariationsOf(start, results) + [VariationOf(start, |results|, r)]
  {
    var a := VariationsOf(start, results + [r]);
    var b := VariationsOf(start, results) + [VariationOf(start, |results|, r)];
    forall k | 0 <= k < |a|
      ensures a[k] == b[k]
    {
      if k < |results| {
        assert (results + [r])[k] == results[k];
      } else {
        assert (results + [r])[k] == r;
        assert a[k] == VariationOf(start, k, r);
      }
    }
    assert a == b;
  }

  /** The success message of the modes that report the range of new names. */
  function RangeMessage(isNewMenu: bool, start: nat, count: nat, what: string): string
  {
    if count == 0 then ""
    else if isNewMenu then "Created Color Menu with " + NatToString(count) + " " + what + " " + RangeText(start, count)
    else "Added " + NatToString(count) + " " + what + " " + RangeText(start, count)
  }

  /** The success message of per-object mode. */
  function PerObjectMessage(isNewMenu: bool, count: nat): string
  {
    if isNewMenu then "Created Color Menu with " + NatToString(count) + " color variations (per-object components)"
    else "Added " + NatToString(count) + " color variations with per-object components"
  }

  /**
   * The outcome once validation passed and the menu was ensured: no group
   * fails and leaves a new menu behind; no match at all removes the
   * variations and a new menu; otherwise the variations stay and the
   * first one is reported.
   */
  function Assemble(isNewMenu: bool, start: nat, results: seq<GroupResult>, successMessage: string): Generated
  {
    if |results| == 0 then Generated(Failure("No material setup groups found"), isNewMenu, [])
    else if TotalMatches(results) == 0 then Generated(Failure("No matching objects found between source and target"), false, [])
    else
      var variations := VariationsOf(start, results);
      Generated(GenerationResult(true, successMessage, Some(variations[0])), isNewMenu, variations)
  }

  /** A generator succeeds exactly when there is a group and some object matched. */
  lemma AssembleSuccess(isNewMenu: bool, start: nat, results: seq<GroupResult>, msg: string)
    ensures Assemble(isNewMenu, start, results, msg).result.success <==>
      |results| > 0 && exists k :: 0 <= k < |results| && results[k].matches > 0
  {
    TotalMatchesZero(results);
  }

  /** With no match, nothing the call created is left: no variation, no new menu, and failure. */
  lemma AssembleCleansUp(isNewMenu: bool, start: nat, results: seq<GroupResult>, msg: string)
    requires |results| > 0
    requires forall k :: 0 <= k < |results| ==> results[k].matches == 0
    ensures var g := Assemble(isNewMenu, start, results, msg);
      !g.result.success && !g.menuCreated && g.variations == []
      && g.result.message == "No matching objects found between source and target"
  {
    TotalMatchesZero(results);
  }

  /**
   * On success there is one variation per group, in group order, named
   * and valued Color(start + k) for group k, each carrying its group's
   * records; the reported object is the first, and a menu is left
   * behind only when one was created.
   */
  lemma AssembleVariations(isNewMenu: bool, start: nat, results: seq<GroupResult>, msg: string)
    requires Assemble(isNewMenu, start, results, msg).result.success
    ensures var g := Assemble(isNewMenu, start, results, msg);
      |g.variations| == |results| && g.menuCreated == isNewMenu
      && g.result.createdObject == Some(g.variations[0])
      && g.result.message == msg
    ensures var g := Assemble(isNewMenu, start, results, msg);
      forall k :: 0 <= k < |results| ==>
        g.variations[k].records == results[k].records
        && g.variations[k].colorNumber == start + k
        && g.variations[k].name == ColorPrefix + NatToString(start + k)
  {
  }

  /** Each variation's name takes back its own number, so a later call sees it as taken. */
  lemma VariationNameTaken(start: nat, k: nat, result: GroupResult)
    requires start + k <= Int32Max
    ensures ColorNumberOf(VariationOf(start, k, result).name) == Some(VariationOf(start, k, result).colorNumber)
  {
    ColorNameNumber(start + k);
  }
}
