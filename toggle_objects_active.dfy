/**
 * The "Toggle objects active" menu command: every selected object is
 * switched on or off, and the tag follows so that a switched-off object
 * is EditorOnly (left out of builds) and a switched-on one Untagged.
 */
module ToggleObjectsActive {
  import opened Collections
  import opened Scene

  /** One object after the command: active flag flipped, tag set from the old flag. */
  function Toggled(g: GameObject): (r: GameObject)
    ensures r.activeSelf == !g.activeSelf
    ensures r.tag == EditorOnlyTag <==> !r.activeSelf
    ensures r.tag == EditorOnlyTag || r.tag == UntaggedTag
    ensures r.(tag := g.tag, activeSelf := g.activeSelf) == g
  {
    g.(tag := if g.activeSelf then EditorOnlyTag else UntaggedTag, activeSelf := !g.activeSelf)
  }

  /** The scene after the command visits each selected object in turn. */
  function ToggledScene(scene: seq<GameObject>, selection: seq<ObjectRef>): seq<GameObject>
  {
    if |selection| == 0 then scene
    else
      var before := ToggledScene(scene, selection[..|selection| - 1]);
      var a := selection[|selection| - 1];
      if InScene(before, a) then SceneWith(before, a, Toggled(SceneAt(before, a))) else before
  }

  /** ToggleObjectsBetweenActiveAndEditorOnly over `Selection.transforms`. */
  method ToggleObjectsBetweenActiveAndEditorOnly(scene: seq<GameObject>, selection: seq<ObjectRef>)
    returns (newScene: seq<GameObject>)
    ensures newScene == ToggledScene(scene, selection)
  {
    newScene := scene;
    for k := 0 to |selection|
      invariant newScene == ToggledScene(scene, selection[..k])
    {
      assert selection[..k + 1][..k] == selection[..k];
      var item := selection[k];
      if InScene(newScene, item) {
        var obj := SceneAt(newScene, item);
        var tagged := obj.(tag := if obj.activeSelf then EditorOnlyTag else UntaggedTag);
        newScene := SceneWith(newScene, item, tagged.(activeSelf := !obj.activeSelf));
      }
    }
    assert selection[..|selection|] == selection;
  }

  /**
   * With a selection that lists each object once: every object stays in
   * place, a selected object is toggled and every other object is
   * untouched.
   */
  lemma {:induction false} ToggledSceneAt(scene: seq<GameObject>, selection: seq<ObjectRef>, q: ObjectRef)
    requires Distinct(selection)
    ensures InScene(ToggledScene(scene, selection), q) <==> InScene(scene, q)
    ensures InScene(scene, q) ==>
      Own(SceneAt(ToggledScene(scene, selection), q)) ==
        if q in selection then Toggled(Own(SceneAt(scene, q))) else Own(SceneAt(scene, q))
  {
    if |selection| > 0 {
      var init := selection[..|selection| - 1];
      var a := selection[|selection| - 1];
      var before := ToggledScene(scene, init);
      assert selection == init + [a];
      DistinctPrefix(selection, |selection| - 1);
      assert Distinct(init) by {
        forall i, j | 0 <= i < j < |init|
          ensures init[i] != init[j]
        {
          assert init[i] == selection[i] && init[j] == selection[j];
        }
      }
      ToggledSceneAt(scene, init, q);
      if InScene(before, a) {
        SceneWithAt(before, a, Toggled(SceneAt(before, a)), q);
      }
    }
  }

  /**
   * Running the command twice on the same selection restores every
   * object's active flag; the tag ends up Untagged for an object that was
   * active and EditorOnly for one that was not.
   */
  lemma ToggleTwice(scene: seq<GameObject>, selection: seq<ObjectRef>, q: ObjectRef)
    requires Distinct(selection) && InScene(scene, q)
    ensures var twice := ToggledScene(ToggledScene(scene, selection), selection);
      InScene(twice, q) &&
      SceneAt(twice, q).activeSelf == SceneAt(scene, q).activeSelf &&
      (q in selection ==>
        SceneAt(twice, q).tag == if SceneAt(scene, q).activeSelf then UntaggedTag else EditorOnlyTag) &&
      (q !in selection ==> Own(SceneAt(twice, q)) == Own(SceneAt(scene, q)))
  {
    var once := ToggledScene(scene, selection);
    ToggledSceneAt(scene, selection, q);
    ToggledSceneAt(once, selection, q);
  }
}
