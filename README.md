# Kanameliser Editor Plus — a Dafny model of its editor tools

Kanameliser Editor Plus is a set of Unity Editor tools for avatar
creators. This project models the logic behind those tools and proves
what that logic promises. The tools are:

- **MA Material Helper.** It copies the material setup of a hierarchy,
  or of several at once. It then matches the records against another
  avatar and generates Modular Avatar "Color Menu" variations. These
  are Material Swap components (one per group, or one per object) or
  Material Setter components.
- **Material Swap Helper.** This is the older version of the same
  feature. It has its own copier, session, name cleaning and object
  matcher.
- **Material Copier.** It copies the materials of every MeshRenderer and
  SkinnedMeshRenderer below a selection and pastes them by name and depth.
- **Component Manager.** It registers the components below a target,
  orders objects breadth-first, filters by object name, path or
  component name, and computes display paths.
- **Mesh info overlays.** These count triangles, meshes, materials and
  slots of the selection. The model covers both the newer calculator and
  the older overlay.
- **AO Bounds Setter.** It writes an Anchor Override, a Root Bone and
  bounds into ticked renderers. Its transform picker filters transforms
  by name.
- **Toggle objects active.** It toggles the active flag and the
  EditorOnly tag of each selected object.

## How the scene is modelled

- **Nodes.** A scene node is a `GameObject` value (module `Scene`). It
  has a name, a tag, an active flag, at most one renderer, an optional
  MeshFilter mesh, its components and its children in sibling order.
- **Positions and references.** A node below a root is addressed by its
  child-index path (`Pos`). A scene object is an `ObjectRef`: the index
  of its root object, then a `Pos`. Its parent is the reference without
  its last index.
- **Traversal order.** The order in which `GetComponentsInChildren`
  returns components is not documented. The model assumes depth-first
  pre-order with siblings in index order (`PreOrder`). Every statement
  about "the first match" rests on this assumption. Likewise,
  `Dictionary` and `HashSet` are assumed to enumerate in insertion order,
  which holds while nothing is removed from them. The generators' planning
  loops (`foreach` over the swap dictionary and over the object sets) rely
  on it.
- **Materials and meshes.** These are opaque identities. A null material
  slot is `None`.
- **Modular Avatar.** The generators do not configure Modular Avatar
  components directly. Instead they emit records (`Emitted`) saying
  which component was added to which object with which values. One
  generator call returns the result, whether a Color Menu it created
  was kept, and the variations it made.
- **Editor state.** Static sessions, caches, editor windows and the
  overlays' state are classes whose methods update their fields. The
  walks, copies and counts are methods with loops, proved against
  specification functions.
- **C# details written out.**
  - Regular expressions are written as character predicates, including
    the rule that `$` also matches before a final newline.
  - `int.TryParse` refuses numbers above 2147483647.
  - The unchecked `(int)` cast of a `uint` wraps at 2^31.
  - `int` division truncates toward zero.
  - Case-insensitive comparison (`ToLower`, `OrdinalIgnoreCase`) folds
    ASCII letters only in the model; C# folds other Unicode letters as
    well (see "## Left out").

## Model

| member | source | states |
|---|---|---|
| ObjectMatcher.RelativePathParts | Editor/MAMaterialHelper/Common/ObjectMatcher.cs:135-149 | in a tree whose names are non-empty and free of '/', the '/'-separated segments of a node's relative path are the names below the root, and its depth is its number of levels |
| ObjectMatcher.GetRelativePathFromRoot | Editor/MAMaterialHelper/Common/ObjectMatcher.cs:135-149 | the prepend loop builds the relative path of the node below the root; the root itself gets "" |
| ObjectMatcher.GetFullPath | Editor/MAMaterialHelper/Common/ObjectMatcher.cs:154-168 | "" for null; otherwise the object's name preceded by each ancestor's name and '/' |
| ObjectMatcher.EditDistanceSelf | Editor/MAMaterialHelper/Common/ObjectMatcher.cs:293-316 | a string is at edit distance 0 from itself |
| ObjectMatcher.EditDistanceFromEmpty | Editor/MAMaterialHelper/Common/ObjectMatcher.cs:295 | from the empty string the distance is the other string's length |
| ObjectMatcher.EditDistanceToEmpty | Editor/MAMaterialHelper/Common/ObjectMatcher.cs:296 | to the empty string the distance is the first string's length |
| ObjectMatcher.EditDistanceBound | Editor/MAMaterialHelper/Common/ObjectMatcher.cs:293-316 | the distance never exceeds the length of the longer string |
| ObjectMatcher.LevenshteinDistance | Editor/MAMaterialHelper/Common/ObjectMatcher.cs:293-316 | the table-filling loops, including the empty-argument shortcuts, return the Levenshtein distance |
| ObjectMatcher.FillRow | Editor/MAMaterialHelper/Common/ObjectMatcher.cs:303-313 | one row of the table holds the distances of that prefix to every prefix of the second string; other rows stay as they were |
| ObjectMatcher.FirstMinimal | Editor/MAMaterialHelper/Common/ObjectMatcher.cs:284-287 | a stable OrderBy/ThenBy followed by First picks a lexicographically least key, and the first among equal least keys |
| ObjectMatcher.SelectBySimilarity | Editor/MAMaterialHelper/Common/ObjectMatcher.cs:279-288 | null exactly for no candidates; otherwise one of the candidates |
| ObjectMatcher.SelectBySimilarityClosestPath | Editor/MAMaterialHelper/Common/ObjectMatcher.cs:284-287 | the root-name key is the same for every candidate, so the choice is the first candidate whose relative path is closest to the target path |
| ObjectMatcher.MinDepthGap | Editor/MAMaterialHelper/Common/ObjectMatcher.cs:257-265 | the GroupBy key of the first group: the smallest distance between a candidate depth and the target depth, reached by some candidate |
| ObjectMatcher.GetBestDepthMatch | Editor/MAMaterialHelper/Common/ObjectMatcher.cs:234-274 | null exactly for no candidates; the pick is a candidate at the target depth when one exists, and never farther from the target depth than any other candidate |
| ObjectMatcher.AtDepthGap | Editor/MAMaterialHelper/Common/ObjectMatcher.cs:257-267 | the candidates at a given distance from the target depth, in order; non-empty when some candidate is at that distance |
| ObjectMatcher.ParentFilterFrom | Editor/MAMaterialHelper/Common/ObjectMatcher.cs:193-226 | the level-by-level narrowing keeps a non-empty subset of a non-empty candidate list |
| ObjectMatcher.ParentFiltered | Editor/MAMaterialHelper/Common/ObjectMatcher.cs:178-228 | at most one candidate is returned unchanged; otherwise a non-empty subset of the candidates |
| ObjectMatcher.FilterByParentHierarchy | Editor/MAMaterialHelper/Common/ObjectMatcher.cs:173-229 | the loop that reassigns the candidate list returns the narrowing ParentFiltered describes |
| ObjectMatcher.RendererNodes | Editor/MAMaterialHelper/Common/ObjectMatcher.cs:23-26 | exactly the nodes of the subtree that carry a Renderer |
| ObjectMatcher.ExactPathMatches | Editor/MAMaterialHelper/Common/ObjectMatcher.cs:33-36 | only Renderer nodes of the subtree |
| ObjectMatcher.SameDepthMatches | Editor/MAMaterialHelper/Common/ObjectMatcher.cs:56-63 | only Renderer nodes with exactly the name |
| ObjectMatcher.ExactNameMatches | Editor/MAMaterialHelper/Common/ObjectMatcher.cs:80 | only Renderer nodes with exactly the name |
| ObjectMatcher.IgnoreCaseMatches | Editor/MAMaterialHelper/Common/ObjectMatcher.cs:97-99 | only Renderer nodes whose name equals the name ignoring case |
| ObjectMatcher.ChooseAmong | Editor/MAMaterialHelper/Common/ObjectMatcher.cs:64-76 | narrowing by ancestors and then by depth finds something exactly when there are matches, and picks one of them |
| ObjectMatcher.FindMatchingObject | Editor/MAMaterialHelper/Common/ObjectMatcher.cs:16-130 | null root gives null; a result is a Renderer node of the target whose name equals the name ignoring case; null only when no Renderer node matches even ignoring case |
| ObjectMatcher.FindMatchingObjectExactPath | Editor/MAMaterialHelper/Common/ObjectMatcher.cs:32-53 | when a Renderer node has exactly the recorded path and name, the first one in pre-order is chosen, whatever the recorded root name |
| ObjectMatcher.ExactPathMatchesFirst | Editor/MAMaterialHelper/Common/ObjectMatcher.cs:33-36 | the first rule's pick has the recorded relative path, the name and a Renderer |
| ObjectMatcher.FindMatchingObjectPrefersExactName | Editor/MAMaterialHelper/Common/ObjectMatcher.cs:55-94 | whenever some Renderer node has exactly the name, the node chosen has exactly that name |
| ObjectMatcher.FindMatchingObjectLaterRules | Editor/MAMaterialHelper/Common/ObjectMatcher.cs:55-113 | without an exact-path match: a Renderer node with exactly the name at the recorded depth forces a result with that name and depth; otherwise one with exactly the name forces a result with that name; otherwise a result exists exactly when some Renderer node matches ignoring case |
| ObjectMatcher.LaterRulesSameDepth | Editor/MAMaterialHelper/Common/ObjectMatcher.cs:55-77 | without an exact-path match, a Renderer node with exactly the name at the recorded depth makes the result one with that name at that depth |
| ObjectMatcher.LaterRulesExactName | Editor/MAMaterialHelper/Common/ObjectMatcher.cs:55-94 | without an exact-path match, a Renderer node with exactly the name anywhere makes the result one with that name |
| ObjectMatcher.ChooseAmongKeepsName | Editor/MAMaterialHelper/Common/ObjectMatcher.cs:64-94 | choosing among nodes that all bear one name gives a node with that name |
| ObjectMatcher.FindMatchingObjectNone | Editor/MAMaterialHelper/Common/ObjectMatcher.cs:96-129 | nothing is found if and only if no Renderer node's name matches, even ignoring case |
| ObjectMatcher.IgnoreCaseMatchesComplete | Editor/MAMaterialHelper/Common/ObjectMatcher.cs:97-99 | every Renderer node whose name matches ignoring case is a candidate of the last rule |
| MaterialSetup.NewEmptySetup | Editor/MAMaterialHelper/Common/MaterialSetupData.cs:20-24 | the parameterless constructor gives empty arrays, empty strings and depth 0 |
| MaterialSetup.NewSetup | Editor/MAMaterialHelper/Common/MaterialSetupData.cs:26-38 | a null materials array becomes empty; there is one slot number per material and slot i is numbered i |
| MaterialSetup.RunsShape | Editor/MAMaterialHelper/Common/MaterialSetupData.cs:116-141 | every group the splitting loop closes is non-empty and holds no group marker |
| MaterialSetup.RunsFlatten | Editor/MAMaterialHelper/Common/MaterialSetupData.cs:118-141 | the groups, put back together, are the non-marker entries in their original order |
| MaterialSetup.GroupsOfEntries | Editor/MAMaterialHelper/Common/MaterialSetupData.cs:116-141 | with at least one non-marker entry the groups are non-empty, marker-free and concatenate to the non-marker entries |
| MaterialSetup.GroupsOfMarkers | Editor/MAMaterialHelper/Common/MaterialSetupData.cs:143-146 | a copy made only of markers comes back as one group holding every entry, markers included |
| MaterialSetup.MAMaterialHelperSession.constructor | Editor/MAMaterialHelper/Common/MaterialSetupData.cs:63 | the session starts with nothing copied |
| MaterialSetup.MAMaterialHelperSession.StoreCopiedData | Editor/MAMaterialHelper/Common/MaterialSetupData.cs:78-81 | stores the data; HasCopiedData then holds exactly when it is non-null with at least one record |
| MaterialSetup.MAMaterialHelperSession.ClearCopiedData | Editor/MAMaterialHelper/Common/MaterialSetupData.cs:86-89 | forgets the copy, so HasCopiedData is false |
| MaterialSetup.MAMaterialHelperSession.GetCopiedDataDescription | Editor/MAMaterialHelper/Common/MaterialSetupData.cs:94-106 | "No data copied" without a copy, otherwise the description of the stored copy |
| MaterialSetup.MAMaterialHelperSession.GetCopiedDataGroups | Editor/MAMaterialHelper/Common/MaterialSetupData.cs:111-149 | no groups without a copy; otherwise the groups of the stored copy (split at markers) |
| MaterialSetup.MAMaterialHelperSession.GetGroupCount | Editor/MAMaterialHelper/Common/MaterialSetupData.cs:154-157 | the number of groups GetCopiedDataGroups returns |
| HierarchyScan.PathFromJoin | Editor/MAMaterialHelper/Common/MaterialSetupCopier.cs:41-50 | the path built step by step is the '/'-joined names, behind the base and a '/' when the base is not empty |
| HierarchyScan.HitsPreOrder | Editor/MAMaterialHelper/Common/MaterialSetupCopier.cs:35-79 | the recursive scan records exactly the nodes, in pre-order, that lie fewer than 10 levels down and have a material slot |
| HierarchyScan.WalkRecords | Editor/MAMaterialHelper/Common/MaterialSetupCopier.cs:53-67 | every record of a scan from depth 0 is a node with a material slot, shallower than 10, with its path and depth |
| HierarchyScan.WalkComplete | Editor/MAMaterialHelper/Common/MaterialSetupCopier.cs:53-78 | every node with a material slot fewer than 10 levels down has its record |
| HierarchyScan.RendererNode | Editor/MAMaterialHelper/Common/MaterialSetupCopier.cs:88 | every renderer GetComponentsInChildren lists belongs to a node of the subtree |
| HierarchyScan.NodeRenderer | Editor/MAMaterialHelper/Common/MaterialSetupCopier.cs:88 | every node's renderer is listed |
| HierarchyScan.HasMaterials | Editor/MAMaterialHelper/Common/MaterialSetupCopier.cs:84-98 | true exactly for a non-null object with some renderer in its subtree that has a material slot |
| HierarchyScan.GetMaterialStats | Editor/MAMaterialHelper/Common/MaterialSetupCopier.cs:146-164 | (0, 0) for null; otherwise the number of renderers with a slot, and the sum of their slot counts |
| MASetupCopier.ScanHierarchy | Editor/MAMaterialHelper/Common/MaterialSetupCopier.cs:35-79 | appends to the shared list exactly the records of the scan of the node |
| MASetupCopier.ScanChildren | Editor/MAMaterialHelper/Common/MaterialSetupCopier.cs:71-78 | the children loop appends each child's scan in index order |
| MASetupCopier.ScanStart | Editor/MAMaterialHelper/Common/MaterialSetupCopier.cs:37-68 | below the depth cap a scan records the node itself if it has a slot, then its children |
| MASetupCopier.CopyMaterialSetup | Editor/MAMaterialHelper/Common/MaterialSetupCopier.cs:16-30 | null is rejected with ArgumentNullException; otherwise the records of the hierarchy under the root's name |
| MASetupCopier.CopyRecords | Editor/MAMaterialHelper/Common/MaterialSetupCopier.cs:37-65 | every record is that of a node with a material slot fewer than 10 levels down: its name, slots, depth, the root's name and the path below the root |
| MASetupCopier.CopyComplete | Editor/MAMaterialHelper/Common/MaterialSetupCopier.cs:53-67 | every node with a material slot fewer than 10 levels down has its record |
| MASetupCopier.CopyInPreOrder | Editor/MAMaterialHelper/Common/MaterialSetupCopier.cs:53-78 | the records come in pre-order |
| MASetupCopier.CopyPathIsRelativePath | Editor/MAMaterialHelper/Common/MaterialSetupCopier.cs:41-50 | the recorded path is the relative path the matcher computes for the same node, with as many segments as the recorded depth |
| MASetupCopier.CopyMatchesBack | Editor/MAMaterialHelper/Common/MaterialSetupCopier.cs:41-66 | matching a copy back against the same hierarchy finds, for every record, a node with that exact name and path |
| MASetupCopier.CopyMaterialSetupFromMultiple | Editor/MAMaterialHelper/Common/MaterialSetupCopier.cs:103-141 | a null or empty array is rejected; otherwise each non-null root adds a group marker and its copy, and the root names are joined |
| MASetupCopier.MarkerIsMarker | Editor/MAMaterialHelper/Common/MaterialSetupCopier.cs:117-123 | the marker the copier writes is recognised as a marker by the session |
| MASetupCopier.MultiGroups | Editor/MAMaterialHelper/Common/MaterialSetupCopier.cs:111-127 | a copy of several roots splits back into the copies of the non-null roots that have records, in order |
| MASetupCopier.CopyHasNoMarkers | Editor/MAMaterialHelper/Common/MaterialSetupCopier.cs:37-65 | a hierarchy with no node named like a marker yields no marker records |
| SwapHelperCopier.ScanHierarchy | Editor/MaterialSwapHelper/MaterialSetupCopier.cs:35-70 | appends to the shared list exactly the records of the scan of the node |
| SwapHelperCopier.ScanChildren | Editor/MaterialSwapHelper/MaterialSetupCopier.cs:62-69 | the children loop appends each child's scan in index order |
| SwapHelperCopier.ScanStart | Editor/MaterialSwapHelper/MaterialSetupCopier.cs:37-59 | below the depth cap a scan records the node itself if it has a slot, then its children |
| SwapHelperCopier.CopyMaterialSetup | Editor/MaterialSwapHelper/MaterialSetupCopier.cs:16-30 | null is rejected; otherwise the records of the hierarchy under the root's name |
| SwapHelperCopier.CopyRecords | Editor/MaterialSwapHelper/MaterialSetupCopier.cs:37-59 | every record is that of a node with a material slot fewer than 10 levels down, with a path that starts at the root's own name |
| SwapHelperCopier.CopyComplete | Editor/MaterialSwapHelper/MaterialSetupCopier.cs:46-69 | every node with a material slot fewer than 10 levels down has its record |
| SwapHelperCopier.RecordedPathShape | Editor/MaterialSwapHelper/MaterialSetupCopier.cs:41-43 | the recorded path is the root's name alone for the root, otherwise the root's name, '/', and the names below joined by '/' |
| SwapHelperData.NewEmptySetup | Editor/MaterialSwapHelper/MaterialSwapHelperData.cs:18-22 | the parameterless constructor gives empty arrays and names |
| SwapHelperData.NewSetup | Editor/MaterialSwapHelper/MaterialSwapHelperData.cs:24-34 | a null materials array becomes empty; slot i is numbered i |
| SwapHelperData.MaterialSwapHelperSession.constructor | Editor/MaterialSwapHelper/MaterialSwapHelperData.cs:59 | the session starts with nothing copied |
| SwapHelperData.MaterialSwapHelperSession.StoreCopiedData | Editor/MaterialSwapHelper/MaterialSwapHelperData.cs:74-77 | stores the data; HasCopiedData then holds exactly when it is non-null with at least one record |
| SwapHelperData.MaterialSwapHelperSession.ClearCopiedData | Editor/MaterialSwapHelper/MaterialSwapHelperData.cs:82-85 | forgets the copy |
| SwapHelperData.MaterialSwapHelperSession.GetCopiedDataDescription | Editor/MaterialSwapHelper/MaterialSwapHelperData.cs:90-102 | "No data copied" without a copy, otherwise the description of the stored copy |
| HelperUtils.ValidateRequirements | Editor/MAMaterialHelper/Common/MAMaterialHelperUtils.cs:14-29 | valid exactly when Modular Avatar is installed, with the matching message |
| HelperUtils.ValidateForCopy | Editor/MAMaterialHelper/Common/MAMaterialHelperUtils.cs:82-107 | null is refused first; otherwise valid exactly when the subtree has a material slot, with the object named in the refusal |
| HelperUtils.CreationValidation | Editor/MAMaterialHelper/Common/MAMaterialHelperUtils.cs:112-137 | a missing object is refused before missing copied data; valid exactly when both are there |
| HelperUtils.ValidateForCreation | Editor/MAMaterialHelper/Common/MAMaterialHelperUtils.cs:112-137 | as CreationValidation, asking the MA Material Helper session |
| HelperUtils.ValidateForSwapCreation | Editor/MaterialSwapHelper/MaterialSwapHelperUtils.cs:112-137 | as CreationValidation, asking the Material Swap Helper session, with its own message |
| HelperUtils.TryExecute | Editor/MAMaterialHelper/Common/MAMaterialHelperUtils.cs:142-155 | true exactly when the action completes without throwing |
| HelperUtils.TryExecuteOr | Editor/MAMaterialHelper/Common/MAMaterialHelperUtils.cs:160-172 | the function's value, or the default value when it throws |
| ColorNumbering.ColorDigits | Editor/MAMaterialHelper/MaterialSwap/MaterialSwapGenerator.cs:312-317 | a match of `^Color(\d+)$` captures a non-empty digit run, and the name is "Color" and those digits, possibly followed by one final newline |
| ColorNumbering.ColorDigitsOf | Editor/MAMaterialHelper/MaterialSwap/MaterialSwapGenerator.cs:312 | every "Color" followed by digits matches and captures those digits, with or without a final newline |
| ColorNumbering.ColorNumberOf | Editor/MAMaterialHelper/MaterialSwap/MaterialSwapGenerator.cs:316-317 | a child name takes a number exactly when it matches and int.TryParse accepts the digits, that is, their value is at most 2147483647 |
| ColorNumbering.ColorNameNumber | Editor/MAMaterialHelper/MaterialSwap/MaterialSwapGenerator.cs:57-58 | the name given to colour variation n takes back the number n |
| ColorNumbering.Taken | Editor/MAMaterialHelper/MaterialSwap/MaterialSwapGenerator.cs:311-321 | the numbers taken by the child names all lie between 0 and 2147483647 |
| ColorNumbering.TakenMember | Editor/MAMaterialHelper/MaterialSwap/MaterialSwapGenerator.cs:314-321 | a number is taken exactly when some child's name takes it |
| ColorNumbering.SmallestFreeFrom | Editor/MAMaterialHelper/MaterialSwap/MaterialSwapGenerator.cs:324-328 | the increment loop stops at a number at least its start that is not taken, and every number it passed was taken |
| ColorNumbering.NextColorNumber | Editor/MAMaterialHelper/MaterialSwap/MaterialSwapGenerator.cs:323-330 | the smallest positive number that no child name takes |
| ColorNumbering.DetermineNextColorNumber | Editor/MAMaterialHelper/MaterialSwap/MaterialSwapGenerator.cs:309-331 | the loop returns the smallest number of at least 1 that no child of the Color Menu takes |
| ColorNumbering.LaterNumbersNotRechecked | Editor/MAMaterialHelper/MaterialSwap/MaterialSwapGenerator.cs:51-58 | the start number is computed once: with one child "Color2", the second of two new variations is named "Color2" as well |
| Generation.ValidateParameters | Editor/MAMaterialHelper/MaterialSwap/MaterialSwapGenerator.cs:264-287 | without Modular Avatar every call fails with that message; a missing target or missing data fails with "Invalid parameters"; otherwise the call goes on |
| Generation.FindChild | Editor/MAMaterialHelper/MaterialSwap/MaterialSwapGenerator.cs:294 | Transform.Find with a plain name: the first direct child with that name, or none when no child has it |
| Generation.FindChildFrom | Editor/MAMaterialHelper/MaterialSwap/MaterialSwapGenerator.cs:294 | the same search from a given child index on |
| Generation.MenuChildNames | Editor/MAMaterialHelper/MaterialSwap/MaterialSwapGenerator.cs:292-304 | a Color Menu the call creates has no children; an existing one contributes its children's names |
| Generation.VariationsOf | Editor/MAMaterialHelper/MaterialSwap/MaterialSwapGenerator.cs:54-61 | one variation per group, group k numbered start + k |
| Generation.TotalMatchesZero | Editor/MAMaterialHelper/MaterialSwap/MaterialSwapGenerator.cs:73 | the total is zero exactly when every group matched nothing |
| Generation.TotalMatchesSnoc | Editor/MAMaterialHelper/MaterialSwap/MaterialSwapGenerator.cs:65 | one more group adds its matches to the total |
| Generation.VariationsSnoc | Editor/MAMaterialHelper/MaterialSwap/MaterialSwapGenerator.cs:57-61 | one more group adds one variation, numbered next |
| Generation.AssembleSuccess | Editor/MAMaterialHelper/MaterialSwap/MaterialSwapGenerator.cs:40-107 | a generator succeeds exactly when there is a group and some group matched something |
| Generation.AssembleCleansUp | Editor/MAMaterialHelper/MaterialSwap/MaterialSwapGenerator.cs:73-91 | with groups but no match, every variation and a Color Menu the call created are removed, and the call fails |
| Generation.AssembleVariations | Editor/MAMaterialHelper/MaterialSwap/MaterialSwapGenerator.cs:98-107 | on success there is one variation per group, in order, named Color(start + k) and carrying its group's records; the first is reported, and a menu is kept only when the call created it |
| Generation.VariationNameTaken | Editor/MAMaterialHelper/MaterialSwap/MaterialSwapGenerator.cs:57-58 | each variation's name takes back its own number, so a later call sees that number as taken |
| GroupMatching.EntryOfMatch | Editor/MAMaterialHelper/MaterialSwap/MaterialSwapGenerator.cs:345-360 | an entry keeps the setup's materials and is matched exactly when the matcher finds a node, which then holds a Renderer whose slots the entry holds |
| GroupMatching.EntriesOf | Editor/MAMaterialHelper/MaterialSwap/MaterialSwapGenerator.cs:342-345 | one entry per setup of the group, in order |
| GroupMatching.EntryGroups | Editor/MAMaterialHelper/MaterialSwap/MaterialSwapGenerator.cs:54-56 | the entries of every group, group by group |
| MASwapGenerator.SwapResults | Editor/MAMaterialHelper/MaterialSwap/MaterialSwapGenerator.cs:54-71 | one result per group, in order |
| MASwapGenerator.CreateColorVariations | Editor/MAMaterialHelper/MaterialSwap/MaterialSwapGenerator.cs:54-71 | the group loop creates variation Color(start + k) for group k with what that group's setup emitted, and sums the groups' match counts |
| MASwapGenerator.CreateMaterialSwap | Editor/MAMaterialHelper/MaterialSwap/MaterialSwapGenerator.cs:26-117 | the whole call (validation, the menu, numbering from the first free number, the groups, clean-up) is SwapGeneration in group mode |
| MASwapGenerator.CreateMaterialSwapPerObject | Editor/MAMaterialHelper/MaterialSwap/MaterialSwapGenerator.cs:122-222 | the whole call is SwapGeneration in per-object mode |
| MASwapGenerator.SwapGenerationValidation | Editor/MAMaterialHelper/MaterialSwap/MaterialSwapGenerator.cs:264-287 | validation failures leave nothing behind; once validation passes the outcome is that of the groups' matches on the target |
| MASwapGenerator.SwapOutcomeNoGroups | Editor/MAMaterialHelper/MaterialSwap/MaterialSwapGenerator.cs:40-47 | without groups the call fails with "No material setup groups found" and a Color Menu it had to create is left in place |
| MASwapGenerator.SwapOutcomeSuccess | Editor/MAMaterialHelper/MaterialSwap/MaterialSwapGenerator.cs:73-107 | after validation, a call succeeds exactly when there is a group and some group forms a slot pair |
| MASwapGenerator.SwapOutcomeCleansUp | Editor/MAMaterialHelper/MaterialSwap/MaterialSwapGenerator.cs:73-91 | with groups but no slot pair anywhere, every variation and a new menu are removed and the call fails |
| MASwapGenerator.SwapOutcomeVariations | Editor/MAMaterialHelper/MaterialSwap/MaterialSwapGenerator.cs:51-107 | on success group k becomes Color(start + k), start being the smallest number no menu child takes, with the components planned for that group |
| SwapPlanning.SlotSwapsMember | Editor/MAMaterialHelper/MaterialSwap/MaterialSwapGenerator.cs:360-379 | a pair is formed exactly for a slot below both lengths where both the current and the copied material are non-null |
| SwapPlanning.SlotSwapsCount | Editor/MAMaterialHelper/MaterialSwap/MaterialSwapGenerator.cs:363-378 | one pair per such slot |
| SwapPlanning.Tagged | Editor/MAMaterialHelper/MaterialSwap/MaterialSwapGenerator.cs:376 | each pair becomes one mapping on the matched object |
| SwapPlanning.GroupMappingsCount | Editor/MAMaterialHelper/MaterialSwap/MaterialSwapGenerator.cs:363-377 | a group yields as many mappings as it has slot pairs |
| SwapPlanning.TableForWellFormed | Editor/MAMaterialHelper/MaterialSwap/MaterialSwapGenerator.cs:233-240 | the table built by AddMapping lists each target once and has an object set for each |
| SwapPlanning.TableTargets | Editor/MAMaterialHelper/MaterialSwap/MaterialSwapGenerator.cs:233-244 | a target is in a source material's table exactly when some mapping sends that material to it |
| SwapPlanning.TableObjects | Editor/MAMaterialHelper/MaterialSwap/MaterialSwapGenerator.cs:233-249 | an object is in a target's set exactly when some mapping sends the material to that target on that object |
| SwapPlanning.TableConflicts | Editor/MAMaterialHelper/MaterialSwap/MaterialSwapGenerator.cs:242 | HasConflicts holds exactly when the material is sent to two different targets |
| SwapPlanning.FirstMaxIndex | Editor/MAMaterialHelper/MaterialSwap/MaterialSwapGenerator.cs:253 | a stable descending sort followed by First picks a largest count, and the first among equal largest counts |
| SwapPlanning.Counts | Editor/MAMaterialHelper/MaterialSwap/MaterialSwapGenerator.cs:253 | each target's count is the number of distinct objects it has |
| SwapPlanning.MostCommonTarget | Editor/MAMaterialHelper/MaterialSwap/MaterialSwapGenerator.cs:251-254 | a target of the table with no fewer objects than any other target |
| SwapPlanning.MainTargetIsMostCommon | Editor/MAMaterialHelper/MaterialSwap/MaterialSwapGenerator.cs:400-410 | both branches pick the most common target: a sole target is trivially the most common |
| SwapPlanning.MaterialSwapInfo.constructor | Editor/MAMaterialHelper/MaterialSwap/MaterialSwapGenerator.cs:231 | an empty table |
| SwapPlanning.MaterialSwapInfo.AddMapping | Editor/MAMaterialHelper/MaterialSwap/MaterialSwapGenerator.cs:233-240 | the table gains the target (if new) and the object in that target's set |
| SwapPlanning.MaterialSwapInfo.GetObjectsForTarget | Editor/MAMaterialHelper/MaterialSwap/MaterialSwapGenerator.cs:246-249 | the objects recorded for the target |
| SwapPlanning.MaterialSwapInfo.GetMostCommonTarget | Editor/MAMaterialHelper/MaterialSwap/MaterialSwapGenerator.cs:251-254 | the most common target of the table |
| SwapPlanning.FromOrderMember | Editor/MAMaterialHelper/MaterialSwap/MaterialSwapGenerator.cs:371-376 | the dictionary keys appear once each, exactly for the mapped source materials, and each has a target |
| SwapPlanning.ObjectRecords | Editor/MAMaterialHelper/MaterialSwap/MaterialSwapGenerator.cs:434-443 | one single-pair component per object, in order |
| SwapPlanning.MainSwaps | Editor/MAMaterialHelper/MaterialSwap/MaterialSwapGenerator.cs:393-410 | one main pair per source material, to its main target |
| SwapPlanning.TableForUnmapped | Editor/MAMaterialHelper/MaterialSwap/MaterialSwapGenerator.cs:371-374 | a source material that is never mapped has an empty table |
| SwapPlanning.MainOnePerSource | Editor/MAMaterialHelper/MaterialSwap/MaterialSwapGenerator.cs:391-428 | the main component holds one pair per mapped source material, in dictionary order, to its most common target |
| SwapPlanning.MainMember | Editor/MAMaterialHelper/MaterialSwap/MaterialSwapGenerator.cs:400-410 | a pair of a mapped material is in the main component exactly when its target is the main target |
| SwapPlanning.TargetRecordsMember | Editor/MAMaterialHelper/MaterialSwap/MaterialSwapGenerator.cs:413-420 | the conflict components for a list of targets are single pairs to a listed non-main target, on an object of that target |
| SwapPlanning.FromRecordsMember | Editor/MAMaterialHelper/MaterialSwap/MaterialSwapGenerator.cs:406-420 | the conflict components of a material are single pairs of its mappings to a non-main target, on that mapping's object |
| SwapPlanning.ConflictRecordsMember | Editor/MAMaterialHelper/MaterialSwap/MaterialSwapGenerator.cs:395-422 | the conflict components of a list of materials are those of each material in turn |
| SwapPlanning.PlanConflicts | Editor/MAMaterialHelper/MaterialSwap/MaterialSwapGenerator.cs:391-443 | the conflict components are exactly one per mapping whose pair is not in the main component, on that mapping's object |
| SwapPlanning.PlanCovers | Editor/MAMaterialHelper/MaterialSwap/MaterialSwapGenerator.cs:391-443 | every mapping is honoured, either by the main component or by a single-pair component added to the colour variation with its Root set to the mapping's object |
| SwapPlanning.CreateConflictResolutionComponent | Editor/MAMaterialHelper/MaterialSwap/MaterialSwapGenerator.cs:434-443 | one component per affected object, each holding only the single pair |
| SwapPlanning.ConflictComponents | Editor/MAMaterialHelper/MaterialSwap/MaterialSwapGenerator.cs:413-420 | the conflict branch emits components for every target except the most common one |
| SwapPlanning.PlanStep | Editor/MAMaterialHelper/MaterialSwap/MaterialSwapGenerator.cs:395-422 | one more source material extends the main pairs by its pair and the conflict components by its own |
| SwapPlanning.ProcessMaterialSwapGroups | Editor/MAMaterialHelper/MaterialSwap/MaterialSwapGenerator.cs:391-429 | the loop over the dictionary emits exactly the planned main and conflict components |
| SwapPlanning.SlotMappingsTagged | Editor/MAMaterialHelper/MaterialSwap/MaterialSwapGenerator.cs:363-379 | the slot loop's mappings are the slot pairs tagged with the matched object |
| SwapPlanning.TableForSnoc | Editor/MAMaterialHelper/MaterialSwap/MaterialSwapGenerator.cs:371-376 | one more mapping changes only its source material's table, and adds that material to the key order if it is new |
| SwapPlanning.AddSwapMapping | Editor/MAMaterialHelper/MaterialSwap/MaterialSwapGenerator.cs:365-377 | creates the material's info if it is new, then records the mapping; earlier infos are unchanged |
| SwapPlanning.AddObjectMappings | Editor/MAMaterialHelper/MaterialSwap/MaterialSwapGenerator.cs:360-379 | the slot loop for one matched object adds one mapping and one match per slot pair |
| SwapPlanning.SetupMaterialSwapsForGroup | Editor/MAMaterialHelper/MaterialSwap/MaterialSwapGenerator.cs:336-386 | the match count is the number of slot pairs, and the components are the plan for the group's mappings |
| SwapPlanning.PerObjectRecordsMember | Editor/MAMaterialHelper/MaterialSwap/MaterialSwapGenerator.cs:470-492 | a per-object component exists exactly for a matched entry with at least one pair, and carries all its pairs |
| SwapPlanning.SetupMaterialSwapsPerObjectForGroup | Editor/MAMaterialHelper/MaterialSwap/MaterialSwapGenerator.cs:448-496 | one component per matched object with pairs; the count is the number of slot pairs |
| SwapPlanning.SameMatchCount | Editor/MAMaterialHelper/MaterialSwap/MaterialSwapGenerator.cs:377-491 | both modes count the same matches: one per slot pair |
| MASetterGenerator.SetterSlots | Editor/MAMaterialHelper/MaterialSetter/MaterialSetterGenerator.cs:238-249 | the slots below the bound whose copied material is non-null, each once, in increasing order |
| MASetterGenerator.SetterMaterialsSlots | Editor/MAMaterialHelper/MaterialSetter/MaterialSetterGenerator.cs:238-249 | the materials list holds, in order, the copied material of every non-null slot below the bound, and nothing else |
| MASetterGenerator.SetterMaterialsEmpty | Editor/MAMaterialHelper/MaterialSetter/MaterialSetterGenerator.cs:242-252 | the list is empty exactly when every copied slot below the bound is null |
| MASetterGenerator.AddMaterialSetterComponent | Editor/MAMaterialHelper/MaterialSetter/MaterialSetterGenerator.cs:265-287 | one Material Setter whose i-th object is the target with the i-th listed material at material index i |
| MASetterGenerator.NullSlotShiftsIndex | Editor/MAMaterialHelper/MaterialSetter/MaterialSetterGenerator.cs:242-284 | the index is the position in the compacted list, not the slot: a null copied slot 0 puts slot 1's material at index 0 |
| MASetterGenerator.SetterMaterialsDense | Editor/MAMaterialHelper/MaterialSetter/MaterialSetterGenerator.cs:242-249 | without null copied slots below the bound, slot j sets its own material at index j |
| MASetterGenerator.SetterRecordsMember | Editor/MAMaterialHelper/MaterialSetter/MaterialSetterGenerator.cs:220-257 | a setter exists exactly for a matched entry whose list is non-empty, and carries that list |
| MASetterGenerator.SetterCountIsSwitchCount | Editor/MAMaterialHelper/MaterialSetter/MaterialSetterGenerator.cs:252-255 | the group's match count is the number of switch objects it emitted |
| MASetterGenerator.SetterCountPositive | Editor/MAMaterialHelper/MaterialSetter/MaterialSetterGenerator.cs:215-259 | a group matches something exactly when one of its entries has a setter slot |
| MASetterGenerator.SetupMaterialSettersForGroup | Editor/MAMaterialHelper/MaterialSetter/MaterialSetterGenerator.cs:215-260 | the loop emits the setters of the group and counts their materials |
| MASetterGenerator.SetterResults | Editor/MAMaterialHelper/MaterialSetter/MaterialSetterGenerator.cs:53-70 | one result per group, in order |
| MASetterGenerator.CreateSetterVariations | Editor/MAMaterialHelper/MaterialSetter/MaterialSetterGenerator.cs:48-70 | the group loop creates variation Color(start + k) with group k's setters, and sums the counts |
| MASetterGenerator.CreateMaterialSetter | Editor/MAMaterialHelper/MaterialSetter/MaterialSetterGenerator.cs:25-116 | the whole call (validation, menu, numbering, groups, clean-up) is SetterGeneration |
| MASetterGenerator.SetterGenerationValidation | Editor/MAMaterialHelper/MaterialSetter/MaterialSetterGenerator.cs:123-146 | validation failures leave nothing behind; once validation passes the outcome is that of the groups' setters |
| MASetterGenerator.SetterOutcomeNoGroups | Editor/MAMaterialHelper/MaterialSetter/MaterialSetterGenerator.cs:39-46 | without groups the call fails and a Color Menu it had to create is left in place |
| MASetterGenerator.SetterOutcomeSuccess | Editor/MAMaterialHelper/MaterialSetter/MaterialSetterGenerator.cs:72-107 | after validation, a call succeeds exactly when some entry of some group has a setter slot |
| MASetterGenerator.SetterOutcomeCleansUp | Editor/MAMaterialHelper/MaterialSetter/MaterialSetterGenerator.cs:72-90 | with groups but no setter slot anywhere, every variation and a new menu are removed and the call fails |
| MASetterGenerator.SetterOutcomeVariations | Editor/MAMaterialHelper/MaterialSetter/MaterialSetterGenerator.cs:53-106 | on success group k becomes Color(start + k) carrying its setters; the first is reported, and a menu is kept only when the call created it |
| LegacySwapGenerator.StripNumberSuffixOf | Editor/MaterialSwapHelper/MaterialSwapGenerator.cs:693-694 | exactly one suffix of a mark and a digit run is removed, and a final newline is kept |
| LegacySwapGenerator.StrippedNameOf | Editor/MaterialSwapHelper/MaterialSwapGenerator.cs:693-694 | ".<digits>" is removed first and then "_<digits>": base_2.1 strips to base |
| LegacySwapGenerator.CleanObjectNameAfterFirst | Editor/MaterialSwapHelper/MaterialSwapGenerator.cs:696-704 | when the stripped name has a '_', the cleaned name is everything after the first one |
| LegacySwapGenerator.CleanObjectNameNoUnderscore | Editor/MaterialSwapHelper/MaterialSwapGenerator.cs:693-707 | without a '_' the cleaned name is the stripped name |
| LegacySwapGenerator.FindMatchingObject | Editor/MaterialSwapHelper/MaterialSwapGenerator.cs:669-686 | a result is a node of the subtree, root included, whose name or cleaned name matches |
| LegacySwapGenerator.FindMatchingObjectExact | Editor/MaterialSwapHelper/MaterialSwapGenerator.cs:672-676 | the first node in pre-order with exactly the name is the one found |
| LegacySwapGenerator.FindMatchingObjectCleaned | Editor/MaterialSwapHelper/MaterialSwapGenerator.cs:678-685 | with no exact name anywhere, the first node in pre-order whose cleaned name equals the cleaned name is found |
| LegacySwapGenerator.FindMatchingObjectNone | Editor/MaterialSwapHelper/MaterialSwapGenerator.cs:669-686 | nothing is found exactly when no node matches by name or by cleaned name |
| LegacySwapGenerator.FindMatchingObjectPrefersExact | Editor/MaterialSwapHelper/MaterialSwapGenerator.cs:672-676 | when some node has exactly the name, the node found has exactly that name |
| LegacySwapGenerator.EntryOfMatch | Editor/MaterialSwapHelper/MaterialSwapGenerator.cs:461-473 | an entry is matched exactly when the node found carries a Renderer, and then holds that node's slots |
| LegacySwapGenerator.EntriesOf | Editor/MaterialSwapHelper/MaterialSwapGenerator.cs:458-461 | one entry per setup of the group, in order |
| LegacySwapGenerator.EntryGroups | Editor/MaterialSwapHelper/MaterialSwapGenerator.cs:63-65 | the entries of every group, group by group |
| LegacySwapGenerator.CreateColorVariations | Editor/MaterialSwapHelper/MaterialSwapGenerator.cs:58-80 | the group loop, over the entries this generator's matcher finds, creates variation Color(start + k) for group k and sums the matches |
| LegacySwapGenerator.CreateMaterialSwap | Editor/MaterialSwapHelper/MaterialSwapGenerator.cs:35-127 | the whole call (validation, menu, numbering, groups, clean-up) in group or per-object mode |
| LegacySwapGenerator.SwapGenerationValidation | Editor/MaterialSwapHelper/MaterialSwapGenerator.cs:273-296 | validation first; once it passes, the outcome is the shared swap outcome over this matcher's entries |
| MaterialCopier.NewMaterialData | Editor/MaterialCopier.cs:20-26 | the record copies the slots, or has none for a null array |
| MaterialCopier.GetRelativePath | Editor/MaterialCopier.cs:293-307 | "" for the selected object itself, otherwise the names below it joined by '/' |
| MaterialCopier.CollectedPreOrder | Editor/MaterialCopier.cs:102-150 | copying a selected object records exactly its objects with a MeshRenderer or SkinnedMeshRenderer, one record each, in pre-order |
| MaterialCopier.CollectedMember | Editor/MaterialCopier.cs:110-134 | every record copied is that of one of the objects with a MeshRenderer or SkinnedMeshRenderer |
| MaterialCopier.CollectedComplete | Editor/MaterialCopier.cs:102-147 | every object with a MeshRenderer or SkinnedMeshRenderer has its record, at its depth below the selected object |
| MaterialCopier.ClosestIndex | Editor/MaterialCopier.cs:230-231 | a stable OrderBy then First: the first record at the smallest distance from the target depth |
| MaterialCopier.GetBestDepthMatch | Editor/MaterialCopier.cs:219-232 | null exactly for no records; the first record at the target depth if any, otherwise the first at the smallest distance |
| MaterialCopier.FindMatchingMaterialData | Editor/MaterialCopier.cs:193-216 | a record with exactly the name wins over one equal ignoring case; one with the name and depth wins over the rest; null exactly when no name matches even ignoring case |
| MaterialCopier.PastedSlots | Editor/MaterialCopier.cs:250-259 | the renderer keeps its slot count; each slot the record has takes the copied material, the rest keep theirs |
| MaterialCopier.PasteSlots | Editor/MaterialCopier.cs:250-258 | the slot-filling loop gives PastedSlots |
| MaterialCopier.AppliedTo | Editor/MaterialCopier.cs:235-289 | only the mesh or skinned renderer's slots change; an object without one is unchanged |
| MaterialCopier.ApplyMaterialsToObject | Editor/MaterialCopier.cs:235-289 | rewrites the mesh or skinned renderer's slots and reports 1, or reports 0 without one |
| MaterialCopier.PasteObject | Editor/MaterialCopier.cs:165-172 | the object's own paste step: the record found for it, applied |
| MaterialCopier.ApplyMaterialsToHierarchy | Editor/MaterialCopier.cs:159-189 | the object's own paste step, then each child's subtree one level deeper; the count of renderers rewritten |
| MaterialCopier.PasteChildren | Editor/MaterialCopier.cs:175-183 | the children loop pastes into each child's subtree in order |
| MaterialCopier.MaterialClipboard.constructor | Editor/MaterialCopier.cs:33 | the copy buffer starts empty |
| MaterialCopier.MaterialClipboard.CollectMaterialsFromHierarchy | Editor/MaterialCopier.cs:102-155 | appends the records of the subtree and returns how many |
| MaterialCopier.MaterialClipboard.CopyMaterials | Editor/MaterialCopier.cs:36-55 | with nothing selected the buffer is kept; otherwise it is emptied and refilled from every selected object |
| MaterialCopier.MaterialClipboard.PasteMaterials | Editor/MaterialCopier.cs:58-86 | with nothing selected or an empty buffer the scene is untouched; otherwise each selected object's subtree is pasted into |
| MaterialCopier.PastedAt | Editor/MaterialCopier.cs:159-189 | pasting works object by object: below any position of the result lies the pasted subtree of the original, at its depth |
| MaterialCopier.PastedTop | Editor/MaterialCopier.cs:165-172 | the top object of a pasted subtree is that object after its own paste step, with as many children |
| MaterialCopier.PasteNothing | Editor/MaterialCopier.cs:200-215 | an empty buffer matches nothing: the subtree is unchanged and nothing is counted |
| MaterialCopier.ExactRecordMatched | Editor/MaterialCopier.cs:200-231 | a record with exactly the target's name and depth makes the match one with that name and depth |
| MaterialCopier.OwnRecordFound | Editor/MaterialCopier.cs:193-228 | when no two objects with a mesh or skinned renderer share name and depth, each object of the copied subtree finds its own record |
| MaterialCopier.OwnRecordKept | Editor/MaterialCopier.cs:235-289 | each object of the copied subtree, given its own record back, is left as it was |
| MaterialCopier.CopyPasteRoundTrip | Editor/MaterialCopier.cs:102-189 | copying a subtree and pasting back into it changes nothing, provided no two objects with a mesh or skinned renderer share name and depth |
| ComponentPaths.CommonFrom | Editor/ComponentManager.cs:441-464 | the longest prefix of the second object's ancestor chain that is also an ancestor-or-self of the first, or none |
| ComponentPaths.RelativeFromAncestorBelow | Editor/ComponentManager.cs:421-438 | seen from an ancestor, a descendant's path is its relative path below that ancestor |
| ComponentPaths.PathOfDescendant | Editor/ComponentManager.cs:351-355 | a descendant of the target is shown as the target's name, '/', and the names below it |
| ComponentPaths.PathOfAncestor | Editor/ComponentManager.cs:356-373 | an ancestor k >= 2 levels up is shown as the target's name and k - 1 ".." segments; the parent as the target's name and a bare '/' |
| ComponentPaths.CommonAncestorExists | Editor/ComponentManager.cs:441-464 | two objects have a common ancestor exactly when they lie under the same root object |
| ComponentPaths.CommonAncestorSymmetric | Editor/ComponentManager.cs:441-464 | the common ancestor does not depend on argument order |
| ComponentPaths.GetFullPath | Editor/ComponentManager.cs:467-479 | "null" for null; otherwise the object's name preceded by each ancestor's name and '/' |
| ComponentPaths.IsChildOf | Editor/ComponentManager.cs:406-418 | true exactly when both are non-null and the parent is a strict ancestor of the child |
| ComponentPaths.GetRelativePathFromAncestor | Editor/ComponentManager.cs:421-438 | "" when either is null; otherwise the names from below the ancestor down to the descendant |
| ComponentPaths.FindCommonAncestor | Editor/ComponentManager.cs:441-464 | null when either is null; otherwise the first object on the second's way up that is on the first's way up |
| ComponentPaths.CalculateGameObjectPath | Editor/ComponentManager.cs:332-403 | "null" for null; otherwise the path text of the object relative to the target |
| ComponentPaths.RelatedPath | Editor/ComponentManager.cs:376-396 | the common-ancestor branch and its full-path fallback for unrelated objects |
| ComponentPaths.UpFromParent | Editor/ComponentManager.cs:360-367 | one "../" per object strictly between the target and the ancestor |
| ComponentPaths.UpFromSelf | Editor/ComponentManager.cs:381-386 | one "../" per object from the target up to the common ancestor, not counting the ancestor |
| ComponentPaths.PathCache.constructor | Editor/ComponentManager.cs:296 | the cache starts empty |
| ComponentPaths.PathCache.ClearCache | Editor/ComponentManager.cs:301-304 | forgets every stored path |
| ComponentPaths.PathCache.GetGameObjectPath | Editor/ComponentManager.cs:309-327 | "null" for null; a stored path is returned unchanged; otherwise the computed path is stored; a cache that agreed with the scene keeps agreeing and returns the computed path |
| ComponentData.Name | Editor/ComponentManager.cs:18-24 | a missing script shows "Missing Component", otherwise the type name |
| ComponentData.InfosOfSelectWhere | Editor/ComponentManager.cs:82-89 | the rows are the Where/Select of the non-null, non-Transform components |
| ComponentData.InfosOfSpec | Editor/ComponentManager.cs:82-89 | every row belongs to the object, is unselected and holds a listed component; every listed component has its row |
| ComponentData.RegisterObject | Editor/ComponentManager.cs:78-99 | one loop step: an object with a listed component, or any object when empty objects are shown, is added with its rows and an unselected flag |
| ComponentData.RegistryValid | Editor/ComponentManager.cs:59-104 | a registry built over a subtree has distinct keys and rows owned by their objects |
| ComponentData.CollectComponents | Editor/ComponentManager.cs:70-99 | the loop registers, in order, exactly the registered objects of the transform list, with their rows |
| ComponentData.RegisteredObjectsSpec | Editor/ComponentManager.cs:70-99 | an object is registered exactly when it is at or below the target and has a listed component (or empty objects are shown); none twice |
| ComponentData.OrderedObjectsSpec | Editor/ComponentManager.cs:111-156 | the ordered list holds each registered object of the target's subtree once, nothing else, and never a deeper object before a shallower one |
| ComponentData.EnqueueChildren | Editor/ComponentManager.cs:141-148 | the children are appended to the queue in index order |
| ComponentData.BreadthFirstOrder | Editor/ComponentManager.cs:111-156 | the queue loop returns the registered objects in breadth-first order |
| ComponentData.FilterComponentsByName | Editor/ComponentManager.cs:192-220 | all rows for an empty filter; otherwise the rows whose name contains the filter ignoring case, or all rows when showAllComponentsOnMatch is set and some row matches |
| ComponentData.ShownObjectsMember | Editor/ComponentManager.cs:223-258 | an object is listed exactly when it is among the ordered objects and passes the filters |
| ComponentData.ShownRowsSpec | Editor/ComponentManager.cs:240-249 | the rows shown with an object are its own rows, and match the component filter unless all rows are shown |
| ComponentData.ShownComponentsSpec | Editor/ComponentManager.cs:233-254 | every listed row is a row of a listed object; with a component filter and without showAllComponentsOnMatch its name contains the filter |
| ComponentData.SelectedComponentsSound | Editor/ComponentManager.cs:276-279 | each reported row is selected and belongs to an object that is not selected |
| ComponentData.SelectedComponentsComplete | Editor/ComponentManager.cs:276-279 | every selected row of an unselected object is reported |
| ComponentData.ComponentDataManager.constructor | Editor/ComponentManager.cs:48-50 | empty dictionaries and key list; empty objects hidden |
| ComponentData.ComponentDataManager.RefreshComponentsList | Editor/ComponentManager.cs:59-104 | for a non-null target the rows, flags and cached paths are replaced by the registration of the target's subtree; null changes nothing |
| ComponentData.ComponentDataManager.GetOrderedGameObjects | Editor/ComponentManager.cs:111-156 | the registered objects met by a breadth-first walk from the target |
| ComponentData.ComponentDataManager.IsGameObjectMatchingFilter | Editor/ComponentManager.cs:159-189 | an empty filter matches; otherwise the name, or with path search the cached path, must contain the filter ignoring case |
| ComponentData.ComponentDataManager.GetFilteredItems | Editor/ComponentManager.cs:223-261 | the ordered objects that pass the object filter and, with a component filter, have a matching row, each with its shown rows |
| ComponentData.ComponentDataManager.FilterObject | Editor/ComponentManager.cs:238-254 | one iteration: whether the object is shown, and the rows shown with it |
| ComponentData.ComponentDataManager.GetSelectedItems | Editor/ComponentManager.cs:265-289 | the selected objects, and every selected row of an object that is not itself selected |
| ComponentData.ComponentDataManager.SetGameObjectSelected | Editor/ComponentManager.cs:666 | sets the object's selection flag and nothing else |
| ComponentData.ComponentDataManager.SetComponentSelected | Editor/ComponentManager.cs:716 | sets the selection flag of one row and nothing else |
| ComponentData.SelectedItemsSpec | Editor/ComponentManager.cs:265-289 | both halves of GetSelectedItems, for any key list of a valid manager |
| SubtreeOrder.SubtreeMember | Editor/ComponentManager.cs:70 | the subtree of an object holds exactly the scene objects at or below it |
| SubtreeOrder.SubtreeFacts | Editor/ComponentManager.cs:70 | the subtree lies in the scene, below the object, and lists each object once |
| SubtreeOrder.BfsPermutation | Editor/ComponentManager.cs:116-149 | the queue loop visits every object of the queued subtrees exactly once |
| SubtreeOrder.BfsByDepth | Editor/ComponentManager.cs:116-149 | from a level-ordered queue, every filtered run of the loop lists objects by depth |
| SubtreeOrder.BreadthFirst | Editor/ComponentManager.cs:111-156 | from one object the filtered loop lists exactly the subtree's objects that pass the filter, each once, none before a shallower one |
| MeshCounting.ToInt32 | Editor/MeshInfo/MeshInfoUtility.cs:14 | C#'s unchecked (int) cast of a uint: unchanged below 2^31, wrapped to a negative number from 2^31 on |
| MeshCounting.TruncDiv3 | Editor/MeshInfo/MeshInfoUtility.cs:14 | C#'s int division by 3, which truncates toward zero for negative numbers too |
| MeshCounting.TriangleCountBounds | Editor/MeshInfo/MeshInfoUtility.cs:9-17 | for index counts below 2^31 the triangle count is never negative, at most a third of all indices, and short of it by less than one triangle per sub-mesh |
| MeshCounting.NonNullSpec | Editor/MeshInfo/MeshInfoUtility.cs:28-35 | the materials added are exactly the non-null slots |
| MeshCounting.SelectionTotalsConcat | Editor/MeshInfo/MeshInfoCalculator.cs:16-19 | counting two selections one after the other combines their totals |
| MeshCounting.SelectionTwice | Editor/MeshInfo/MeshInfoCalculator.cs:8-27 | selecting the same objects twice leaves meshes, materials, triangles and the child flag unchanged but counts every slot twice |
| MeshCounting.TreeMeshesReached | Editor/MeshInfo/MeshInfoCalculator.cs:29-50 | the meshes counted are exactly those of the nodes reached, an EditorOnly object hiding its whole subtree |
| MeshCounting.TreeMaterialsReached | Editor/MeshInfo/MeshInfoCalculator.cs:29-50 | the materials counted are exactly the non-null slots the reached nodes' mesh branches read |
| MeshCounting.TreeHasChildrenReached | Editor/MeshInfo/MeshInfoCalculator.cs:36-38 | the "(Total)" flag holds exactly when a reached node has a child |
| MeshInfo.EmptySelection | Editor/MeshInfo/MeshInfoCalculator.cs:8-27 | an empty selection shows zero everywhere and no "(Total)" flag |
| MeshInfo.MeshInfoData.constructor | Editor/MeshInfo/MeshInfoData.cs:3-9 | a new record holds zeros and no child flag |
| MeshInfo.MeshInfoData.WithValues | Editor/MeshInfo/MeshInfoData.cs:22-29 | an object initializer giving all five values |
| MeshInfo.MeshInfoData.Reset | Editor/MeshInfo/MeshInfoData.cs:11-18 | every count becomes zero and the child flag false |
| MeshInfo.MeshInfoData.Clone | Editor/MeshInfo/MeshInfoData.cs:20-30 | a new record with the same five values; this one is unchanged |
| MeshInfo.CountTriangles | Editor/MeshInfo/MeshInfoUtility.cs:9-17 | the loop sums each sub-mesh's index count, cast to int, divided by three |
| MeshInfo.ProcessMesh | Editor/MeshInfo/MeshInfoUtility.cs:19-26 | a mesh seen before adds no triangles; a new one is added to the set and adds its whole triangle count |
| MeshInfo.ProcessMaterials | Editor/MeshInfo/MeshInfoUtility.cs:28-35 | adds every non-null material of the slots to the set, and nothing else |
| MeshInfo.ProcessStandardMeshComponents | Editor/MeshInfo/MeshInfoUtility.cs:37-70 | the MeshFilter mesh with the MeshRenderer's materials and slots, and the SkinnedMeshRenderer's mesh with its own; triangles only for new meshes |
| MeshInfo.ProcessGameObject | Editor/MeshInfo/MeshInfoCalculator.cs:29-50 | the subtree's totals unless the object is EditorOnly; returns the triangles of the meshes first seen there |
| MeshInfo.ProcessChildren | Editor/MeshInfo/MeshInfoCalculator.cs:44-47 | each child's subtree in order |
| MeshInfo.CountSelection | Editor/MeshInfo/MeshInfoCalculator.cs:16-19 | the selected objects in turn, sharing the processed sets; the triangles of all distinct meshes |
| MeshInfo.CalculateMeshInfo | Editor/MeshInfo/MeshInfoCalculator.cs:8-27 | a new record holding the expected counts of the selection |
| MeshInfo.CalculatedStats | Editor/MeshInfo/MeshInfoCalculator.cs:8-27 | the values of a freshly calculated record are the expected counts |
| MeshInfo.HasSelectionChanged | Editor/MeshInfo/MeshInfoDisplay.cs:74-88 | with nothing recorded, changed exactly when something is selected; otherwise changed exactly when the selection differs in length or in some element |
| MeshInfo.MeshInfoDisplay.constructor | Editor/MeshInfo/MeshInfoDisplay.cs:25-33 | visible unless the stored preference says otherwise; a first count is forced |
| MeshInfo.MeshInfoDisplay.ToggleDisplayVisibility | Editor/MeshInfo/MeshInfoDisplay.cs:36-46 | flips the visibility and stores it as the preference; nothing else changes |
| MeshInfo.MeshInfoDisplay.OnSceneGUI | Editor/MeshInfo/MeshInfoDisplay.cs:48-72 | hidden or without an active object nothing changes; otherwise a changed selection is recorded and forces a recount, and the numbers are recounted when forced or when 0.2 s have passed |
| MeshInfo.MeshInfoDisplay.RecordSelection | Editor/MeshInfo/MeshInfoDisplay.cs:54-61 | a changed selection is stored and forces the next recount |
| MeshInfo.MeshInfoDisplay.Recount | Editor/MeshInfo/MeshInfoDisplay.cs:64-69 | recounts the selection, stamps the time and clears the force flag |
| LegacyMeshInfo.LegacyVisitAgrees | Editor/MeshInfoDisplay.cs:117-167 | the older overlay reaches the same meshes and the same child flag as the newer calculator |
| LegacyMeshInfo.SameMeshCounts | Editor/MeshInfoDisplay.cs:96-114 | the older overlay reports the same triangle count, mesh count and "(Total)" flag as the newer one |
| LegacyMeshInfo.LegacyRevisit | Editor/MeshInfoDisplay.cs:131-158 | a subtree whose meshes were all processed already adds no materials and no slots |
| LegacyMeshInfo.LegacySelectionTwice | Editor/MeshInfoDisplay.cs:107-110 | selecting the same objects twice changes none of the older overlay's numbers |
| LegacyMeshInfo.LegacyComponentsSpec | Editor/MeshInfoDisplay.cs:128-158 | every mesh of the object ends up processed; when all were processed before, the object adds nothing, neither materials nor slots |
| LegacyMeshInfo.ProcessFilterMesh | Editor/MeshInfoDisplay.cs:128-144 | the MeshFilter branch; the triangles of its mesh when it is new |
| LegacyMeshInfo.ProcessSkinnedMesh | Editor/MeshInfoDisplay.cs:147-158 | the SkinnedMeshRenderer branch; the triangles of its mesh when it is new |
| LegacyMeshInfo.ProcessMeshData | Editor/MeshInfoDisplay.cs:117-167 | the subtree's totals unless the object is EditorOnly; returns the triangles of the meshes first seen there |
| LegacyMeshInfo.CountSelection | Editor/MeshInfoDisplay.cs:104-113 | the recursive count over every selected object, sharing the processed sets |
| LegacyMeshInfo.LegacyMeshInfoDisplay.constructor | Editor/MeshInfoDisplay.cs:21-29 | visible unless the stored preference says otherwise; zero totals and no stored selection |
| LegacyMeshInfo.LegacyMeshInfoDisplay.ToggleDisplayVisibility | Editor/MeshInfoDisplay.cs:32-38 | flips the visibility and stores it as the preference |
| LegacyMeshInfo.LegacyMeshInfoDisplay.SetTotals | Editor/MeshInfoDisplay.cs:98-113 | the shown totals become the given values; nothing else changes |
| LegacyMeshInfo.LegacyMeshInfoDisplay.CalculateMeshInfo | Editor/MeshInfoDisplay.cs:96-114 | zeroes the totals and recounts them for the selection |
| LegacyMeshInfo.LegacyMeshInfoDisplay.OnSceneGUI | Editor/MeshInfoDisplay.cs:40-49 | hidden or without an active object nothing changes; otherwise the totals are recounted exactly when the selection array is a different array, which is then stored |
| AOBoundsSetter.RenderersUnderSpec | Editor/AOBoundsSetter/AOBoundsSetterWindow.cs:265 | the list holds every renderer at or below the root, each once |
| AOBoundsSetter.CreateRows | Editor/AOBoundsSetter/AOBoundsSetterWindow.cs:267-281 | one ticked row per renderer, in order |
| AOBoundsSetter.SelectedCountSpec | Editor/AOBoundsSetter/AOBoundsSetterWindow.cs:454 | the count is zero exactly when no row is ticked, and the length exactly when all are |
| AOBoundsSetter.HeaderFor | Editor/AOBoundsSetter/AOBoundsSetterWindow.cs:445-471 | cleared for no ticked row, ticked when all rows are, ticked and mixed otherwise |
| AOBoundsSetter.ApplyEnabled | Editor/AOBoundsSetter/AOBoundsSetterWindow.cs:473-477 | enabled exactly when some row is ticked and the root is live |
| AOBoundsSetter.SetAllSelected | Editor/AOBoundsSetter/AOBoundsSetterWindow.cs:418-421 | every row takes the value; the renderers stay |
| AOBoundsSetter.AppliedRenderer | Editor/AOBoundsSetter/AOBoundsSetterWindow.cs:507-526 | the renderer ends with the chosen Anchor Override, and a skinned one with the chosen bounds and Root Bone; its materials stay |
| AOBoundsSetter.AppliedObject | Editor/AOBoundsSetter/AOBoundsSetterWindow.cs:507-526 | only the object's renderer changes |
| AOBoundsSetter.AppliedObjectTwice | Editor/AOBoundsSetter/AOBoundsSetterWindow.cs:507-526 | applying the same settings twice gives the same object as applying them once |
| AOBoundsSetter.AppliedTally | Editor/AOBoundsSetter/AOBoundsSetterWindow.cs:502-526 | each counter is at most the number of targets, and Root Bone writes never outnumber bounds writes |
| AOBoundsSetter.ApplyToRenderers | Editor/AOBoundsSetter/AOBoundsSetterWindow.cs:502-527 | the loop writes the settings into every target and counts the writes |
| AOBoundsSetter.AppliedSceneAt | Editor/AOBoundsSetter/AOBoundsSetterWindow.cs:505-527 | every object stays in place; a target takes the writes once however often listed; every other object is untouched |
| AOBoundsSetter.SelectedRenderers | Editor/AOBoundsSetter/AOBoundsSetterWindow.cs:481-484 | as many renderers as ticked rows |
| AOBoundsSetter.SelectedRenderersMember | Editor/AOBoundsSetter/AOBoundsSetterWindow.cs:481-484 | a renderer is a target exactly when some ticked row shows it |
| AOBoundsSetter.ApplyEffect | Editor/AOBoundsSetter/AOBoundsSetterWindow.cs:479-531 | every renderer a ticked row shows ends with the chosen settings; every other object is untouched |
| AOBoundsSetter.AOBoundsSetterWindow.constructor | Editor/AOBoundsSetter/AOBoundsSetterWindow.cs:25-26 | no root, an empty list, the header cleared and Apply disabled |
| AOBoundsSetter.AOBoundsSetterWindow.UpdateHeaderToggle | Editor/AOBoundsSetter/AOBoundsSetterWindow.cs:445-471 | the header follows the rows |
| AOBoundsSetter.AOBoundsSetterWindow.UpdateApplyButtonState | Editor/AOBoundsSetter/AOBoundsSetterWindow.cs:473-477 | the Apply button follows the rows and the root |
| AOBoundsSetter.AOBoundsSetterWindow.RefreshMeshList | Editor/AOBoundsSetter/AOBoundsSetterWindow.cs:243-284 | one ticked row per renderer under a live root that is not a prefab asset; header and button follow |
| AOBoundsSetter.AOBoundsSetterWindow.OnRootObjectChanged | Editor/AOBoundsSetter/AOBoundsSetterWindow.cs:237-241 | takes the new root and rebuilds the list |
| AOBoundsSetter.AOBoundsSetterWindow.OnRowToggleChanged | Editor/AOBoundsSetter/AOBoundsSetterWindow.cs:295-300 | row i takes the new value; header and button follow |
| AOBoundsSetter.AOBoundsSetterWindow.OnHeaderToggleChanged | Editor/AOBoundsSetter/AOBoundsSetterWindow.cs:407-442 | a click on the mixed box clears every row; otherwise every row takes the new value; the box is never mixed afterwards |
| AOBoundsSetter.AOBoundsSetterWindow.OnApplyButtonClicked | Editor/AOBoundsSetter/AOBoundsSetterWindow.cs:479-531 | with no ticked row nothing changes; otherwise the settings are written into the ticked renderers and the list is rebuilt |
| TransformSelector.FilteredSpec | Editor/AOBoundsSetter/TransformSelectorWindow.cs:146-155 | an empty search lists everything; otherwise a transform is listed exactly when it is in the full list and its name contains the search ignoring case; no repeats in, none out |
| TransformSelector.TransformSelectorWindow.Show | Editor/AOBoundsSetter/TransformSelectorWindow.cs:23-54 | an open window for the root with an empty search and empty lists |
| TransformSelector.TransformSelectorWindow.RefreshFilteredList | Editor/AOBoundsSetter/TransformSelectorWindow.cs:140-162 | the filtered list for the current search |
| TransformSelector.TransformSelectorWindow.RefreshTransformList | Editor/AOBoundsSetter/TransformSelectorWindow.cs:123-138 | every transform of a live root's subtree in pre-order, none without one; then the filtered list |
| TransformSelector.TransformSelectorWindow.CreateGUI | Editor/AOBoundsSetter/TransformSelectorWindow.cs:56-115 | fills both lists |
| TransformSelector.TransformSelectorWindow.OnSearchTextChanged | Editor/AOBoundsSetter/TransformSelectorWindow.cs:117-121 | a null search counts as empty; the filtered list follows |
| TransformSelector.TransformSelectorWindow.OnItemClicked | Editor/AOBoundsSetter/TransformSelectorWindow.cs:202-207 | the callback, if any, receives the clicked transform, then the window closes |
| TransformSelector.TransformSelectorWindow.OnLostFocus | Editor/AOBoundsSetter/TransformSelectorWindow.cs:212-216 | the window closes |
| ToggleObjectsActive.Toggled | Editor/ToggleObjectsActive.cs:15-16 | the active flag flips and the tag becomes EditorOnly exactly when the object is now inactive, Untagged otherwise; nothing else changes |
| ToggleObjectsActive.ToggleObjectsBetweenActiveAndEditorOnly | Editor/ToggleObjectsActive.cs:8-18 | the loop toggles each selected object in turn |
| ToggleObjectsActive.ToggledSceneAt | Editor/ToggleObjectsActive.cs:11-17 | every object stays in place; a selected object is toggled and every other object is untouched |
| ToggleObjectsActive.ToggleTwice | Editor/ToggleObjectsActive.cs:15-16 | toggling twice restores every active flag; the tag ends Untagged for an object that was active, EditorOnly otherwise |

## Left out

- GUI drawing and layout are not modelled. This covers the Component Manager's drawing code and column widths, the UIElements construction of the AO Bounds Setter window, the transform picker's popup positioning, and the whole mesh info renderer. These are float screen arithmetic and toolkit calls.
- Unity Editor services are not modelled, or are reduced to plain state. Undo recording, `Selection`, prefab-stage lookups and hierarchy-window focusing are left out. `EditorPrefs` becomes a field holding the stored preference. The selection and the active object become parameters.
- Modular Avatar and NDMF are not modelled. Adding a Material Swap or Material Setter component and configuring it becomes an emitted record. The NDMF preview reflection and the Modular Avatar integration helpers are not part of this model.
- Whether Modular Avatar is installed is a parameter.
- Dialogs, `Debug.Log` text and catch-all exception blocks are left out. The exception wrappers `TryExecute` are modelled on an action's outcome (`Run`).
- The menu command glue of the two helper editors is not part of this model. It consists only of selection checks and calls.
- The Component Manager's selection in prefab mode, `RemoveSelectedComponents` and its delete confirmation are left out. They depend on Undo and on destroying Unity objects.
- Bounds arithmetic (`extent * 2f`) is left out. The bounds value is opaque: the model records which renderers get it, not how it is computed.
- Times are plain `real` numbers supplied by the caller. The copy timestamp of a copied setup is not kept.
- The older generator (Editor/MaterialSwapHelper/MaterialSwapGenerator.cs) calls a `MaterialSwapHelperSession.GetCopiedDataGroups` that the session file does not define. Its groups are therefore a parameter of `LegacySwapGenerator.CreateMaterialSwap`.
- The older editor calls a `CopyMaterialSetupFromMultiple` that its copier does not define. Only the single-root copy is modelled for that copier.
- The newer editor passes a `skipUnchanged` argument that `CreateMaterialSetter` does not accept. The model follows the generator's own signature.
- The older generator's `SetupMaterialSwaps` (line 507) and `SetupMaterialSwapsPerObject` (line 615) take the copied data directly. Its own `CreateMaterialSwap` flow never calls them, so they are not modelled. The shared swap planning of `SwapPlanning` stands for what that flow does.
- `GetComponentsInChildren` order is assumed to be depth-first pre-order with siblings in index order. The statements about which match comes first rest on this assumption.
- Unity allows at most one Renderer per GameObject, so a node has at most one renderer. For this reason `MaterialCopier.ApplyMaterialsToObject` reports 0 or 1.
- LevenshteinDistance: the distance is computed over Unicode scalar values, since a Dafny `string` is a sequence of them. The source indexes UTF-16 code units (`s.Length`, `s[i - 1]`), so a character outside the Basic Multilingual Plane counts as two units there and one here. For example, "😀" and "x" are at distance 2 in the source and 1 in the model. That can change which candidate the similarity tie-break of `ObjectMatcher.SelectBySimilarity` picks. The lemmas EditDistanceFromEmpty and EditDistanceToEmpty state lengths in scalar values too.
- EditDistanceFromEmpty: the length it states is a count of Unicode scalar values, not of UTF-16 code units (see LevenshteinDistance).
- EditDistanceToEmpty: the length it states is a count of Unicode scalar values, not of UTF-16 code units (see LevenshteinDistance).
- Case-insensitive comparison folds ASCII letters only. Culture-specific and Unicode case rules are not modelled.
- A null string (an object name, a search text) is modelled as "", except where the source tests for null; the search text of the transform picker is one such case.
- MeshCounting.TriangleCountBounds: the bounds are stated only for index counts below 2^31. Above that, the unchecked cast makes the count negative. `ToInt32` models this, but no bound is claimed for it.
- StripNumberSuffixOf: the `\.\d+$` and `_\d+$` patterns of the older generator strip runs of ASCII digits only. .NET `\d` also matches other Unicode decimal digits (fullwidth '１', for example), so a name such as "Body.１" is stripped by the source and kept by the model.
- StrippedNameOf: inherits the ASCII-only digit runs of StripNumberSuffixOf, and so does the cleaned-name rule of `LegacySwapGenerator.FindMatchingObject`.
- CountTriangles: the triangle total is an unbounded integer. The source adds with unchecked 32-bit `+=`, which wraps to a negative value past 2147483647; totals are exact only while they stay below 2^31.
- ProcessStandardMeshComponents: the triangle and slot totals do not wrap as the source's 32-bit `int` does; exact only below 2^31.
- ProcessGameObject: the subtree triangle, material and slot totals do not wrap at 2^31.
- ProcessChildren: the children's triangle total does not wrap at 2^31.
- CountSelection (`MeshInfo.CountSelection` and `LegacyMeshInfo.CountSelection`): the selection's triangle total does not wrap at 2^31; a selection whose distinct meshes hold more triangles than that shows a negative number in the source.
- ProcessFilterMesh: the triangle and slot additions do not wrap at 2^31.
- ProcessSkinnedMesh: the triangle and slot additions do not wrap at 2^31.
- ProcessMeshData: the subtree triangle total does not wrap at 2^31.
- ApplyToRenderers: rows name their renderers by position in the scene (`ObjectRef`), and the model assumes the hierarchy is unchanged between the list refresh and Apply. A ticked row whose object no longer carries a renderer is skipped. In the source the row holds the renderer itself: a renderer destroyed since the refresh makes `renderer.probeAnchor` throw, which ends the loop after the earlier writes; and after a hierarchy edit the source keeps writing into the same component, wherever it now sits.
- OnApplyButtonClicked: inherits the assumption of ApplyToRenderers. The exception path of the source, which skips the final `RefreshMeshList`, is not modelled.
- The older overlay compares selection arrays by reference, and the model does the same. Whether Unity hands out a new array on each repaint, and so forces a recount every time, is outside the model.
- Two classes named `MeshInfoDisplay` share one namespace in the source. They are modelled separately as `MeshInfo.MeshInfoDisplay` and `LegacyMeshInfo.LegacyMeshInfoDisplay`.
- The repaint interval constant is 0.2 seconds, and the depth cap of the copiers is 10. Both are inlined as constants.
