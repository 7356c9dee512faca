/**
 * What both Modular Avatar generators learn about a copied setup on the
 * target: the object `ObjectMatcher.FindMatchingObject` picks and its
 * Renderer's material slots, next to the setup's own materials.
 */
module GroupMatching {
  import opened Collections
  import opened Scene
  import opened ObjectMatcher
  import opened MaterialSetup
  import opened SwapPlanning

  /**
   * What the group loop learns about one copied setup: the node the
   * matcher picks with its Renderer's material slots, or nothing. The
   * matcher only returns nodes with a Renderer, so its null-renderer test
   * never skips a match.
   */
  function EntryOf(root: GameObject, s: MaterialSetupData): Entry
  {
    match FindMatchingObject(Some(root), s.objectName, s.relativePath, s.hierarchyDepth, s.rootObjectName)
    case None => Entry(None, s.materials)
    case Some(p) => Entry(Some(Matched(p, At(root, p).renderer.value.sharedMaterials)), s.materials)
  }

  /** The entry keeps the setup's materials and holds exactly the matcher's pick, with that Renderer's slots. */
  lemma EntryOfMatch(root: GameObject, s: MaterialSetupData)
    ensures EntryOf(root, s).source == s.materials
    ensures var m := FindMatchingObject(Some(root), s.objectName, s.relativePath, s.hierarchyDepth, s.rootObjectName);
      (EntryOf(root, s).matched.Some? <==> m.Some?)
      && (m.Some? ==> EntryOf(root, s).matched.value.target == m.value && ValidPos(root, m.value)
                      && At(root, m.value).renderer.Some?
                      && EntryOf(root, s).matched.value.current == At(root, m.value).renderer.value.sharedMaterials)
  {
  }

  /** The entries of a group, setup by setup. */
  function EntriesOf(root: GameObject, group: seq<MaterialSetupData>): (es: seq<Entry>)
    ensures |es| == |group|
    ensures forall i :: 0 <= i < |group| ==> es[i] == EntryOf(root, group[i])
  {
    Map(group, s => EntryOf(root, s))
  }

  /** The entries of every group, group by group. */
  function EntryGroups(root: GameObject, groups: seq<seq<MaterialSetupData>>): (r: seq<seq<Entry>>)
    ensures |r| == |groups|
    ensures forall k :: 0 <= k < |groups| ==> r[k] == EntriesOf(root, groups[k])
  {
    Map(groups, EntriesOfGroup(root))
  }

  function EntriesOfGroup(root: GameObject): seq<MaterialSetupData> -> seq<Entry>
  {
    group => EntriesOf(root, group)
  }
}
