/**
 * The path text the component list shows for each GameObject
 * (ComponentPathUtility of the Component Manager window).
 *
 * An object is named relative to the window's target object: by the
 * target's name alone for the target itself, by the names below the
 * target for its descendants, by a run of ".." segments for its
 * ancestors, by going up to the nearest common ancestor and down again
 * for a relative, and by its full scene path after an arrow for an
 * object of another root. Paths are memoised per (object, target) pair
 * until the cache is cleared.
 *
 * Scene objects are addressed by their `ObjectRef` (child indices from the
 * scene's root list): the parent of `r` is `r` without its last index, and
 * a root object (`|r| == 1`) has no parent.
 */
module ComponentPaths {
  import opened Collections
  import opened Text
  import opened Scene
  import ObjectMatcher

  // ---------------------------------------------------------------------
  // Specification

  /** The '/'-joined names from the root object down to `a`. */
  function FullPath(scene: seq<GameObject>, a: ObjectRef): string
    requires InScene(scene, a)
  {
    ObjectMatcher.FullPath(scene, a)
  }

  /**
   * The path of descendant `d` seen from `a`: "." for `a` itself, the
   * names strictly below `a` down to `d` when `a` is an ancestor, and the
   * full path of `d` when the walk up from `d` never meets `a`.
   */
  function RelativeFromAncestor(scene: seq<GameObject>, d: ObjectRef, a: ObjectRef): string
    requires InScene(scene, d) && InScene(scene, a)
  {
    if d == a then "."
    else if a < d then Join(NamesBelow(SceneRoot(scene), d)[|a|..], '/')
    else FullPath(scene, d)
  }

  /**
   * The longest prefix of `t2` of length 1 to `k` that is also an
   * ancestor-or-self of `t1`.
   */
  function CommonFrom(t1: ObjectRef, t2: ObjectRef, k: nat): (r: Option<ObjectRef>)
    requires k <= |t2|
    ensures r.Some? ==> 1 <= |r.value| <= k && r.value <= t2 && r.value <= t1
    ensures r.Some? ==> forall j :: |r.value| < j <= k ==> !(t2[..j] <= t1)
    ensures r.None? ==> forall j :: 1 <= j <= k ==> !(t2[..j] <= t1)
  {
    if k == 0 then None
    else if t2[..k] <= t1 then Some(t2[..k])
    else CommonFrom(t1, t2, k - 1)
  }

  /** The nearest object that is an ancestor-or-self of both `t1` and `t2`, if any. */
  function CommonAncestor(t1: ObjectRef, t2: ObjectRef): Option<ObjectRef>
  {
    CommonFrom(t1, t2, |t2|)
  }

  /** The path text of `go` relative to `target`; the full path when there is no target. */
  function CalculatedPath(scene: seq<GameObject>, go: ObjectRef, target: Option<ObjectRef>): string
    requires InScene(scene, go)
    requires target.Some? ==> InScene(scene, target.value)
  {
    if target.None? then FullPath(scene, go)
    else
      var t := target.value;
      var name := SceneAt(scene, t).name;
      if go == t then name
      else if t < go then name + "/" + RelativeFromAncestor(scene, go, t)
      else if go < t then name + "/" + TrimEnd(Repeat("../", |t| - |go| - 1), '/')
      else PathViaCommonAncestor(scene, go, t)
  }

  /**
   * The path text of `go` relative to a `target` of which it is neither an
   * ancestor nor a descendant: up from the target to the common ancestor,
   * one "../" per step, then down to `go`; with no common ancestor, an
   * arrow and the full path of `go`.
   */
  function PathViaCommonAncestor(scene: seq<GameObject>, go: ObjectRef, t: ObjectRef): string
    requires InScene(scene, go) && InScene(scene, t)
  {
    var name := SceneAt(scene, t).name;
    match CommonAncestor(go, t)
    case Some(c) =>
      assert c == t[..|c|];
      ValidPrefix(SceneRoot(scene), t, |c|);
      name + "/" + TrimEnd(Repeat("../", |t| - |c|) + RelativeFromAncestor(scene, go, c), '/')
    case None => name + " \U{2192} " + FullPath(scene, go)
  }

  /** `n` ".." segments. */
  function Dots(n: nat): (r: seq<string>)
    ensures |r| == n && forall i :: 0 <= i < n ==> r[i] == ".."
  {
    seq(n, i => "..")
  }

  // ---------------------------------------------------------------------
  // Properties

  /** Seen from an ancestor, a descendant's path is its relative path below that ancestor. */
  lemma RelativeFromAncestorBelow(scene: seq<GameObject>, a: ObjectRef, q: Pos)
    requires InScene(scene, a) && |q| >= 1 && ValidPos(SceneAt(scene, a), q)
    ensures InScene(scene, a + q)
    ensures RelativeFromAncestor(scene, a + q, a) == ObjectMatcher.RelativePath(SceneAt(scene, a), q)
  {
    var root := SceneRoot(scene);
    AtConcat(root, a, q);
    assert (a + q)[..|a|] == a;
    assert NamesBelow(root, a + q)[|a|..] == NamesBelow(SceneAt(scene, a), q);
  }

  /** A descendant of the target is shown as the target's name and the names below it. */
  lemma PathOfDescendant(scene: seq<GameObject>, t: ObjectRef, q: Pos)
    requires InScene(scene, t) && |q| >= 1 && ValidPos(SceneAt(scene, t), q)
    ensures InScene(scene, t + q)
    ensures CalculatedPath(scene, t + q, Some(t))
      == SceneAt(scene, t).name + "/" + ObjectMatcher.RelativePath(SceneAt(scene, t), q)
  {
    RelativeFromAncestorBelow(scene, t, q);
    assert (t + q)[..|t|] == t;
  }

  /** `m` copies of "../" followed by ".." are `m + 1` ".." segments. */
  lemma {:induction false} RepeatDots(m: nat)
    ensures Repeat("../", m) + ".." == Join(Dots(m + 1), '/')
  {
    if m > 0 {
      RepeatDots(m - 1);
      JoinCons("..", Dots(m), '/');
      assert Dots(m + 1) == [".."] + Dots(m);
      assert Repeat("../", m) + ".." == ".." + ['/'] + (Repeat("../", m - 1) + "..");
    } else {
      assert Dots(1) == [".."];
    }
  }

  /** Trimming a final "../" keeps its "..". */
  lemma TrimEndDots(x: string)
    ensures TrimEnd(x + "../", '/') == x + ".."
  {
    assert x + "../" == (x + "..") + "/";
    TrimEndOne(x + "..", '/');
  }

  /** Trimming the trailing '/' of `n >= 1` copies of "../" leaves `n` ".." segments. */
  lemma UpPathDots(n: nat)
    requires n >= 1
    ensures TrimEnd(Repeat("../", n), '/') == Join(Dots(n), '/')
  {
    var m := n - 1;
    var r := Repeat("../", m);
    RepeatSnoc("../", m);
    assert Repeat("../", n) == r + "../";
    TrimEndDots(r);
    RepeatDots(m);
    assert TrimEnd(r + "../", '/') == Join(Dots(n), '/');
  }

  /**
   * An ancestor `k >= 2` levels above the target is shown with `k - 1`
   * ".." segments; the target's parent is shown as the target's name
   * followed by a bare '/'.
   */
  lemma PathOfAncestor(scene: seq<GameObject>, go: ObjectRef, t: ObjectRef)
    requires InScene(scene, go) && InScene(scene, t) && go < t
    ensures |t| - |go| >= 2 ==> CalculatedPath(scene, go, Some(t)) == SceneAt(scene, t).name + "/" + Join(Dots(|t| - |go| - 1), '/')
    ensures |t| - |go| == 1 ==> CalculatedPath(scene, go, Some(t)) == SceneAt(scene, t).name + "/"
  {
    if |t| - |go| >= 2 {
      UpPathDots(|t| - |go| - 1);
    }
  }

  /** Two objects have a common ancestor exactly when they lie under the same root object. */
  lemma CommonAncestorExists(t1: ObjectRef, t2: ObjectRef)
    requires |t1| >= 1 && |t2| >= 1
    ensures CommonAncestor(t1, t2).Some? <==> t1[0] == t2[0]
  {
    if t1[0] == t2[0] {
      assert t2[..1] <= t1;
    }
    var r := CommonAncestor(t1, t2);
    if r.Some? {
      assert r.value[0] == t1[0] && r.value[0] == t2[0];
    }
  }

  /** The common ancestor does not depend on which of the two objects is named first. */
  lemma CommonAncestorSymmetric(t1: ObjectRef, t2: ObjectRef)
    ensures CommonAncestor(t1, t2) == CommonAncestor(t2, t1)
  {
    var r1 := CommonAncestor(t1, t2);
    var r2 := CommonAncestor(t2, t1);
    if r1.Some? {
      var n := |r1.value|;
      assert t1[..n] == r1.value && t1[..n] <= t2;
      assert r2.Some?;
    }
    if r2.Some? {
      var n := |r2.value|;
      assert t2[..n] == r2.value && t2[..n] <= t1;
      assert r1.Some?;
    }
    if r1.Some? && r2.Some? {
      var n1 := |r1.value|;
      var n2 := |r2.value|;
      assert t1[..n1] <= t2;
      assert n1 <= n2;
      assert t2[..n2] <= t1;
      assert n2 <= n1;
      assert r1.value == t1[..n1] == r2.value;
    }
  }

  // ---------------------------------------------------------------------
  // The utility's operations

  /** GetFullPath: the object's name, preceded by each ancestor's name and a '/'; "null" for null. */
  method GetFullPath(scene: seq<GameObject>, go: Option<ObjectRef>) returns (path: string)
    requires go.Some? ==> InScene(scene, go.value)
    ensures go.None? ==> path == "null"
    ensures go.Some? ==> path == FullPath(scene, go.value)
  {
    if go.None? {
      return "null";
    }
    path := ObjectMatcher.GetFullPath(scene, go);
  }

  /** IsChildOf: walking up from `child`'s parent meets `parent`; false when either is null. */
  method IsChildOf(scene: seq<GameObject>, child: Option<ObjectRef>, parent: Option<ObjectRef>) returns (b: bool)
    requires child.Some? ==> InScene(scene, child.value)
    requires parent.Some? ==> InScene(scene, parent.value)
    ensures b <==> child.Some? && parent.Some? && parent.value < child.value
  {
    if child.None? || parent.None? {
      return false;
    }
    var c := child.value;
    var p := parent.value;
    var k := |c| - 1;
    while k > 0
      invariant 0 <= k < |c|
      invariant p < c ==> |p| <= k
    {
      if c[..k] == p {
        return true;
      }
      k := k - 1;
    }
    return false;
  }

  /** GetRelativePathFromAncestor: the names from below `ancestor` down to `descendant`; "" for null. */
  method GetRelativePathFromAncestor(scene: seq<GameObject>, descendant: Option<ObjectRef>, ancestor: Option<ObjectRef>)
    returns (path: string)
    requires descendant.Some? ==> InScene(scene, descendant.value)
    requires ancestor.Some? ==> InScene(scene, ancestor.value)
    ensures descendant.None? || ancestor.None? ==> path == ""
    ensures descendant.Some? && ancestor.Some? ==> path == RelativeFromAncestor(scene, descendant.value, ancestor.value)
  {
    if descendant.None? || ancestor.None? {
      return "";
    }
    var d := descendant.value;
    var a := ancestor.value;
    if d == a {
      return ".";
    }
    var root := SceneRoot(scene);
    NamesBelowIndex(root, d, |d| - 1);
    assert d[..|d|] == d;
    path := At(root, d).name;
    var k := |d| - 1;
    while k > 0 && d[..k] != a
      invariant 0 <= k < |d|
      invariant a < d ==> |a| <= k
      invariant path == Join(NamesBelow(root, d)[k..], '/')
    {
      PrependName(root, d, k);
      assert a < d ==> d[..|a|] == a;
      path := At(root, d[..k]).name + "/" + path;
      k := k - 1;
    }
    if k == 0 {
      assert NamesBelow(root, d)[0..] == NamesBelow(root, d);
    }
  }

  /** One more ancestor's name in front of the names below it down to `d`. */
  lemma PrependName(root: GameObject, d: Pos, k: nat)
    requires ValidPos(root, d) && 0 < k < |d|
    ensures ValidPos(root, d[..k])
    ensures Join(NamesBelow(root, d)[k - 1..], '/') == At(root, d[..k]).name + "/" + Join(NamesBelow(root, d)[k..], '/')
  {
    NamesBelowIndex(root, d, k - 1);
    JoinCons(At(root, d[..k]).name, NamesBelow(root, d)[k..], '/');
    assert NamesBelow(root, d)[k - 1..] == [NamesBelow(root, d)[k - 1]] + NamesBelow(root, d)[k..];
  }

  /** FindCommonAncestor: the first object on `t2`'s way up that is on `t1`'s way up; null if none. */
  method FindCommonAncestor(scene: seq<GameObject>, t1: Option<ObjectRef>, t2: Option<ObjectRef>)
    returns (common: Option<ObjectRef>)
    requires t1.Some? ==> InScene(scene, t1.value)
    requires t2.Some? ==> InScene(scene, t2.value)
    ensures t1.None? || t2.None? ==> common.None?
    ensures t1.Some? && t2.Some? ==> common == CommonAncestor(t1.value, t2.value)
  {
    if t1.None? || t2.None? {
      return None;
    }
    var a := t1.value;
    var b := t2.value;
    var ancestors: set<ObjectRef> := {};
    var k := |a|;
    while k > 0
      invariant 0 <= k <= |a|
      invariant forall x :: x in ancestors <==> exists j :: k < j <= |a| && x == a[..j]
    {
      ancestors := ancestors + {a[..k]};
      k := k - 1;
    }
    k := |b|;
    while k > 0
      invariant 0 <= k <= |b|
      invariant CommonAncestor(a, b) == CommonFrom(a, b, k)
    {
      if b[..k] in ancestors {
        return Some(b[..k]);
      }
      if b[..k] <= a {
        assert b[..k] == a[..k];
      }
      k := k - 1;
    }
    return None;
  }

  /** CalculateGameObjectPath: the path text of `go` relative to `targetObject`; "null" for null. */
  method CalculateGameObjectPath(scene: seq<GameObject>, go: Option<ObjectRef>, targetObject: Option<ObjectRef>)
    returns (path: string)
    requires go.Some? ==> InScene(scene, go.value)
    requires targetObject.Some? ==> InScene(scene, targetObject.value)
    ensures go.None? ==> path == "null"
    ensures go.Some? ==> path == CalculatedPath(scene, go.value, targetObject)
  {
    if go.None? {
      return "null";
    }
    if targetObject.None? {
      path := GetFullPath(scene, go);
      return;
    }
    var g := go.value;
    var t := targetObject.value;
    var name := SceneAt(scene, t).name;
    if g == t {
      return name;
    }
    var below := IsChildOf(scene, go, targetObject);
    if below {
      var relative := GetRelativePathFromAncestor(scene, go, targetObject);
      return name + "/" + relative;
    }
    var above := IsChildOf(scene, targetObject, go);
    if above {
      var upPath := UpFromParent(t, g);
      return name + "/" + TrimEnd(upPath, '/');
    }
    path := RelatedPath(scene, g, t);
  }

  /** The common-ancestor branch of CalculateGameObjectPath, and its fallback for unrelated objects. */
  method RelatedPath(scene: seq<GameObject>, g: ObjectRef, t: ObjectRef) returns (path: string)
    requires InScene(scene, g) && InScene(scene, t)
    ensures path == PathViaCommonAncestor(scene, g, t)
  {
    var name := SceneAt(scene, t).name;
    var common := FindCommonAncestor(scene, Some(g), Some(t));
    if common.Some? {
      var c := common.value;
      assert c == t[..|c|];
      ValidPrefix(SceneRoot(scene), t, |c|);
      var upPath := UpFromSelf(t, c);
      var downPath := GetRelativePathFromAncestor(scene, Some(g), common);
      return name + "/" + TrimEnd(upPath + downPath, '/');
    }
    path := GetFullPath(scene, Some(g));
    path := name + " \U{2192} " + path;
  }

  /** The "../" run for an ancestor: one per object strictly between `t` and `go`. */
  method UpFromParent(t: ObjectRef, go: ObjectRef) returns (upPath: string)
    requires |go| >= 1 && go < t
    ensures upPath == Repeat("../", |t| - |go| - 1)
  {
    upPath := "";
    var k := |t| - 1;
    while k > 0 && t[..k] != go
      invariant |go| <= k < |t|
      invariant upPath == Repeat("../", |t| - 1 - k)
    {
      RepeatSnoc("../", |t| - 1 - k);
      upPath := upPath + "../";
      k := k - 1;
    }
  }

  /** The "../" run up to a common ancestor: one per object from `t` up to, not including, `c`. */
  method UpFromSelf(t: ObjectRef, c: ObjectRef) returns (upPath: string)
    requires c <= t
    ensures upPath == Repeat("../", |t| - |c|)
  {
    upPath := "";
    var k := |t|;
    while k > 0 && t[..k] != c
      invariant |c| <= k <= |t|
      invariant upPath == Repeat("../", |t| - k)
    {
      RepeatSnoc("../", |t| - k);
      upPath := upPath + "../";
      k := k - 1;
    }
  }

  // ---------------------------------------------------------------------
  // The path cache

  /** The utility's static cache of computed paths, keyed by (object, target). */
  class PathCache {
    var pathCache: map<(ObjectRef, Option<ObjectRef>), string>

    /** Every cached path is the path computed for its key in `scene`. */
    ghost predicate Coherent(scene: seq<GameObject>)
      reads this
    {
      forall key | key in pathCache ::
        InScene(scene, key.0) && (key.1.Some? ==> InScene(scene, key.1.value))
        && pathCache[key] == CalculatedPath(scene, key.0, key.1)
    }

    constructor()
      ensures pathCache == map[]
    {
      pathCache := map[];
    }

    /** ClearCache: forgets every stored path. */
    method ClearCache()
      modifies this
      ensures pathCache == map[]
    {
      pathCache := map[];
    }

    /**
     * GetGameObjectPath: "null" for a null object; otherwise the stored
     * path for (go, targetObject) if there is one, else the computed path,
     * which is stored.
     */
    method GetGameObjectPath(scene: seq<GameObject>, go: Option<ObjectRef>, targetObject: Option<ObjectRef>)
      returns (path: string)
      requires go.Some? ==> InScene(scene, go.value)
      requires targetObject.Some? ==> InScene(scene, targetObject.value)
      modifies this
      ensures go.None? ==> path == "null" && pathCache == old(pathCache)
      ensures go.Some? && (go.value, targetObject) in old(pathCache) ==>
        path == old(pathCache)[(go.value, targetObject)] && pathCache == old(pathCache)
      ensures go.Some? && (go.value, targetObject) !in old(pathCache) ==>
        path == CalculatedPath(scene, go.value, targetObject)
        && pathCache == old(pathCache)[(go.value, targetObject) := path]
      ensures old(Coherent(scene)) ==> Coherent(scene)
      ensures old(Coherent(scene)) && go.Some? ==> path == CalculatedPath(scene, go.value, targetObject)
    {
      if go.None? {
        return "null";
      }
      var key := (go.value, targetObject);
      if key in pathCache {
        return pathCache[key];
      }
      path := CalculateGameObjectPath(scene, go, targetObject);
      pathCache := pathCache[key := path];
    }
  }
}
