/**
 * The Transform selector popup of the AO Bounds Setter: it lists every
 * transform under a root object, narrows the list to the names that
 * contain the search text (ignoring case), and hands the clicked
 * transform to the field that opened it, then closes.
 *
 * A Transform is named by the scene reference of its object.
 */
module TransformSelector {
  import opened Collections
  import opened Scene
  import opened SubtreeOrder
  import opened Text

  /** The test of a non-empty search: the transform's name contains `text`, ignoring case. */
  function NameMatches(scene: seq<GameObject>, text: string): ObjectRef -> bool
  {
    t => InScene(scene, t) && ContainsIgnoreCase(SceneAt(scene, t).name, text)
  }

  /** RefreshFilteredList's list: everything for an empty search, else the matching transforms in order. */
  function FilteredFor(scene: seq<GameObject>, all: seq<ObjectRef>, text: string): seq<ObjectRef>
  {
    if |text| == 0 then all else Filter(all, NameMatches(scene, text))
  }

  /**
   * An empty search lists everything; otherwise a transform is listed
   * exactly when it is in the full list and its name matches. A list
   * without repeats gives a filtered list without repeats.
   */
  lemma FilteredSpec(scene: seq<GameObject>, all: seq<ObjectRef>, text: string, t: ObjectRef)
    ensures |text| == 0 ==> FilteredFor(scene, all, text) == all
    ensures t in FilteredFor(scene, all, text) <==> t in all && (|text| == 0 || NameMatches(scene, text)(t))
    ensures Distinct(all) ==> Distinct(FilteredFor(scene, all, text))
  {
    if |text| > 0 {
      FilterMember(all, NameMatches(scene, text), t);
      if Distinct(all) {
        FilterDistinct(all, NameMatches(scene, text));
      }
    }
  }

  class TransformSelectorWindow {
    var rootObject: Option<ObjectRef>
    /** Whether an `onSelectionChanged` callback was given. */
    var hasCallback: bool
    var allTransforms: seq<ObjectRef>
    var filteredTransforms: seq<ObjectRef>
    var searchText: string
    var isOpen: bool

    /** Show: an open window for `root`, with an empty search and empty lists until its GUI is built. */
    constructor Show(root: Option<ObjectRef>, callback: bool)
      ensures rootObject == root && hasCallback == callback && isOpen
      ensures searchText == "" && allTransforms == [] && filteredTransforms == []
    {
      rootObject := root;
      hasCallback := callback;
      allTransforms := [];
      filteredTransforms := [];
      searchText := "";
      isOpen := true;
    }

    method RefreshFilteredList(scene: seq<GameObject>)
      modifies this
      ensures filteredTransforms == FilteredFor(scene, allTransforms, searchText)
      ensures allTransforms == old(allTransforms) && searchText == old(searchText)
      ensures rootObject == old(rootObject) && hasCallback == old(hasCallback) && isOpen == old(isOpen)
    {
      if |searchText| == 0 {
        filteredTransforms := allTransforms;
      } else {
        filteredTransforms := Filter(allTransforms, NameMatches(scene, searchText));
      }
    }

    /**
     * RefreshTransformList: every transform of the root's subtree in
     * pre-order, none without a live root; then the filtered list.
     */
    method RefreshTransformList(scene: seq<GameObject>)
      modifies this
      ensures allTransforms == if IsLive(scene, rootObject) then Subtree(scene, rootObject.value) else []
      ensures forall t :: t in allTransforms <==> IsLive(scene, rootObject) && InScene(scene, t) && rootObject.value <= t
      ensures filteredTransforms == FilteredFor(scene, allTransforms, searchText)
      ensures searchText == old(searchText)
      ensures rootObject == old(rootObject) && hasCallback == old(hasCallback) && isOpen == old(isOpen)
    {
      allTransforms := [];
      if IsLive(scene, rootObject) {
        allTransforms := Subtree(scene, rootObject.value);
        forall t
          ensures t in allTransforms <==> InScene(scene, t) && rootObject.value <= t
        {
          SubtreeMember(scene, rootObject.value, t);
        }
      }
      RefreshFilteredList(scene);
    }

    /** CreateGUI fills the lists. */
    method CreateGUI(scene: seq<GameObject>)
      modifies this
      ensures allTransforms == if IsLive(scene, rootObject) then Subtree(scene, rootObject.value) else []
      ensures filteredTransforms == FilteredFor(scene, allTransforms, searchText)
      ensures searchText == old(searchText)
      ensures rootObject == old(rootObject) && hasCallback == old(hasCallback) && isOpen == old(isOpen)
    {
      RefreshTransformList(scene);
    }

    /** OnSearchTextChanged: a null search value counts as the empty one. */
    method OnSearchTextChanged(scene: seq<GameObject>, newValue: Option<string>)
      modifies this
      ensures searchText == if newValue.Some? then newValue.value else ""
      ensures filteredTransforms == FilteredFor(scene, allTransforms, searchText)
      ensures allTransforms == old(allTransforms)
      ensures rootObject == old(rootObject) && hasCallback == old(hasCallback) && isOpen == old(isOpen)
    {
      searchText := if newValue.Some? then newValue.value else "";
      RefreshFilteredList(scene);
    }

    /** A click on a listed item: the callback, if any, receives that transform, then the window closes. */
    method OnItemClicked(t: ObjectRef) returns (invoked: Option<ObjectRef>)
      requires t in filteredTransforms
      modifies this
      ensures invoked == if hasCallback then Some(t) else None
      ensures !isOpen
      ensures allTransforms == old(allTransforms) && filteredTransforms == old(filteredTransforms)
      ensures searchText == old(searchText) && rootObject == old(rootObject) && hasCallback == old(hasCallback)
    {
      invoked := if hasCallback then Some(t) else None;
      isOpen := false;
    }

    /** OnLostFocus closes the window. */
    method OnLostFocus()
      modifies this
      ensures !isOpen
      ensures allTransforms == old(allTransforms) && filteredTransforms == old(filteredTransforms)
      ensures searchText == old(searchText) && rootObject == old(rootObject) && hasCallback == old(hasCallback)
    {
      isOpen := false;
    }
  }
}
