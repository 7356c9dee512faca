/**
 * Finding, in a target hierarchy, the object that corresponds to an object
 * recorded from a source hierarchy (MA Material Helper's ObjectMatcher).
 *
 * Candidates are the objects of the target subtree that carry a Renderer,
 * in pre-order. Four rules are tried in turn: exact relative path and
 * name; same depth and exact name; exact name at any depth; name equal
 * ignoring case. Several candidates under the last three rules are
 * narrowed by comparing their ancestors' names with the source path, then
 * by depth, then by the edit distance between the paths.
 */
module ObjectMatcher {
  import opened Collections
  import opened Text
  import opened Scene

  // ---------------------------------------------------------------------
  // Relative paths and depths

  /** The '/'-joined names strictly below `root` down to the node at `p`. */
  function RelativePath(root: GameObject, p: Pos): string
    requires ValidPos(root, p)
  {
    Join(NamesBelow(root, p), '/')
  }

  /** The segments of a path: none for the empty path, otherwise its '/'-separated pieces. */
  function PathParts(path: string): (r: seq<string>)
    ensures path == "" <==> |r| == 0
  {
    if path == "" then [] else Split(path, '/')
  }

  /** The depth the matcher assigns to a path: its number of segments. */
  function PathDepth(path: string): nat
  {
    |PathParts(path)|
  }

  function NodeDepth(root: GameObject, p: Pos): nat
    requires ValidPos(root, p)
  {
    PathDepth(RelativePath(root, p))
  }

  /**
   * Every name below `t` is non-empty and free of '/'. In such a tree a
   * relative path determines its segments.
   */
  predicate WellNamed(t: GameObject)
  {
    forall i :: 0 <= i < |t.children| ==>
      t.children[i].name != "" && '/' !in t.children[i].name && WellNamed(t.children[i])
  }

  lemma {:induction false} WellNamedNames(t: GameObject, p: Pos)
    requires ValidPos(t, p) && WellNamed(t)
    ensures forall i :: 0 <= i < |p| ==> NamesBelow(t, p)[i] != "" && '/' !in NamesBelow(t, p)[i]
    decreases |p|
  {
    if |p| > 0 {
      WellNamedNames(t.children[p[0]], p[1..]);
    }
  }

  /** In a well-named tree the segments of a relative path are the names below the root. */
  lemma RelativePathParts(t: GameObject, p: Pos)
    requires ValidPos(t, p) && WellNamed(t)
    ensures PathParts(RelativePath(t, p)) == NamesBelow(t, p)
    ensures NodeDepth(t, p) == |p|
  {
    var names := NamesBelow(t, p);
    WellNamedNames(t, p);
    JoinEmpty(names, '/');
    if |p| > 0 {
      SplitJoin(names, '/');
    }
  }

  /**
   * GetRelativePathFromRoot: walks from the node up to `root`, putting each
   * name in front of those already collected, and joins them with '/'.
   */
  method GetRelativePathFromRoot(root: GameObject, p: Pos) returns (path: string)
    requires ValidPos(root, p)
    ensures path == RelativePath(root, p)
    ensures p == [] ==> path == ""
  {
    var parts: seq<string> := [];
    var k := |p|;
    while k > 0
      invariant 0 <= k <= |p|
      invariant parts == NamesBelow(root, p)[k..]
    {
      NamesBelowIndex(root, p, k - 1);
      var current := At(root, p[..k]);
      parts := [current.name] + parts;
      k := k - 1;
    }
    path := Join(parts, '/');
  }

  /** The '/'-joined names from the scene root object down to the object at `a`. */
  function FullPath(scene: seq<GameObject>, a: ObjectRef): string
    requires InScene(scene, a)
  {
    Join(NamesBelow(SceneRoot(scene), a), '/')
  }

  /** GetFullPath: the object's name, preceded by each ancestor's name and a '/'; "" for null. */
  method GetFullPath(scene: seq<GameObject>, a: Option<ObjectRef>) returns (path: string)
    requires a.Some? ==> InScene(scene, a.value)
    ensures a.None? ==> path == ""
    ensures a.Some? ==> path == FullPath(scene, a.value)
  {
    if a.None? {
      return "";
    }
    var r := SceneRoot(scene);
    var q := a.value;
    NamesBelowIndex(r, q, |q| - 1);
    assert q[..|q|] == q;
    path := At(r, q).name;
    var k := |q| - 1;
    while k > 0
      invariant 0 <= k < |q|
      invariant path == Join(NamesBelow(r, q)[k..], '/')
    {
      NamesBelowIndex(r, q, k - 1);
      JoinCons(At(r, q[..k]).name, NamesBelow(r, q)[k..], '/');
      assert NamesBelow(r, q)[k - 1..] == [NamesBelow(r, q)[k - 1]] + NamesBelow(r, q)[k..];
      path := At(r, q[..k]).name + "/" + path;
      k := k - 1;
    }
  }

  // ---------------------------------------------------------------------
  // Edit distance

  function Min(a: int, b: int): int
  {
    if a <= b then a else b
  }

  /**
   * The insert / delete / substitute distance between the first `i`
   * characters of `s` and the first `j` characters of `t`.
   */
  function PrefixDistance(s: string, t: string, i: nat, j: nat): nat
    requires i <= |s| && j <= |t|
    decreases i + j
  {
    if i == 0 then j
    else if j == 0 then i
    else Min(Min(PrefixDistance(s, t, i - 1, j) + 1, PrefixDistance(s, t, i, j - 1) + 1),
             PrefixDistance(s, t, i - 1, j - 1) + (if s[i - 1] == t[j - 1] then 0 else 1))
  }

  /** The edit distance of two whole strings. */
  function EditDistance(s: string, t: string): nat
  {
    PrefixDistance(s, t, |s|, |t|)
  }

  lemma {:induction false} PrefixDistanceSelf(s: string, i: nat)
    requires i <= |s|
    ensures PrefixDistance(s, s, i, i) == 0
  {
    if i > 0 {
      PrefixDistanceSelf(s, i - 1);
    }
  }

  /** A string is at distance zero from itself. */
  lemma EditDistanceSelf(s: string)
    ensures EditDistance(s, s) == 0
  {
    PrefixDistanceSelf(s, |s|);
  }

  /** From the empty string, every character of `t` must be inserted. */
  lemma EditDistanceFromEmpty(t: string)
    ensures EditDistance("", t) == |t|
  {
  }

  /** To the empty string, every character of `s` must be deleted. */
  lemma EditDistanceToEmpty(s: string)
    ensures EditDistance(s, "") == |s|
  {
  }

  lemma {:induction false} PrefixDistanceBound(s: string, t: string, i: nat, j: nat)
    requires i <= |s| && j <= |t|
    ensures PrefixDistance(s, t, i, j) <= if i >= j then i else j
    decreases i + j
  {
    if i > 0 && j > 0 {
      PrefixDistanceBound(s, t, i - 1, j - 1);
    }
  }

  /** No more edits are needed than the longer string has characters. */
  lemma EditDistanceBound(s: string, t: string)
    ensures EditDistance(s, t) <= if |s| >= |t| then |s| else |t|
  {
    PrefixDistanceBound(s, t, |s|, |t|);
  }

  /**
   * LevenshteinDistance: fills the (|s1|+1) x (|s2|+1) table row by row;
   * an empty argument short-cuts to the other argument's length.
   */
  method LevenshteinDistance(s1: string, s2: string) returns (dist: nat)
    ensures dist == EditDistance(s1, s2)
  {
    if |s1| == 0 {
      return |s2|;
    }
    if |s2| == 0 {
      return |s1|;
    }
    var d := new int[|s1| + 1, |s2| + 1];
    for i := 0 to |s1| + 1
      invariant forall i' :: 0 <= i' < i ==> d[i', 0] == PrefixDistance(s1, s2, i', 0)
    {
      d[i, 0] := i;
    }
    for j := 0 to |s2| + 1
      invariant forall i' :: 1 <= i' <= |s1| ==> d[i', 0] == PrefixDistance(s1, s2, i', 0)
      invariant forall j' :: 0 <= j' < j ==> d[0, j'] == PrefixDistance(s1, s2, 0, j')
    {
      d[0, j] := j;
    }
    for i := 1 to |s1| + 1
      invariant forall i', j' :: 0 <= i' < i && 0 <= j' <= |s2| ==> d[i', j'] == PrefixDistance(s1, s2, i', j')
      invariant forall i' :: i <= i' <= |s1| ==> d[i', 0] == PrefixDistance(s1, s2, i', 0)
    {
      FillRow(d, s1, s2, i - 1, i);
    }
    dist := d[|s1|, |s2|];
  }

  /** One cell of the table, from its upper, left and upper-left neighbours. */
  lemma PrefixDistanceCell(s: string, t: string, above: nat, i: nat, j: nat, up: int, left: int, diagonal: int)
    requires i == above + 1 && i <= |s| && 1 <= j <= |t|
    requires up == PrefixDistance(s, t, above, j) && left == PrefixDistance(s, t, i, j - 1)
    requires diagonal == PrefixDistance(s, t, above, j - 1)
    ensures PrefixDistance(s, t, i, j) == Min(Min(up + 1, left + 1), diagonal + if s[above] == t[j - 1] then 0 else 1)
  {
  }

  /** Row `i` of the table, from the row above it and its own first cell. */
  method FillRow(d: array2<int>, s1: string, s2: string, above: nat, i: nat)
    requires d.Length0 == |s1| + 1 && d.Length1 == |s2| + 1
    requires i == above + 1 && i <= |s1|
    requires forall j' :: 0 <= j' <= |s2| ==> d[above, j'] == PrefixDistance(s1, s2, above, j')
    requires d[i, 0] == PrefixDistance(s1, s2, i, 0)
    modifies d
    ensures forall i', j' :: 0 <= i' < d.Length0 && 0 <= j' < d.Length1 && i' != i ==> d[i', j'] == old(d[i', j'])
    ensures forall j' :: 0 <= j' <= |s2| ==> d[i, j'] == PrefixDistance(s1, s2, i, j')
  {
    for j := 1 to |s2| + 1
      invariant forall i', j' :: 0 <= i' < d.Length0 && 0 <= j' < d.Length1 && i' != i ==> d[i', j'] == old(d[i', j'])
      invariant forall j' {:trigger d[i, j']} :: 0 <= j' < j ==> d[i, j'] == PrefixDistance(s1, s2, i, j')
    {
      var cost := if s1[above] == s2[j - 1] then 0 else 1;
      var cell := Min(Min(d[above, j] + 1, d[i, j - 1] + 1), d[above, j - 1] + cost);
      PrefixDistanceCell(s1, s2, above, i, j, d[above, j], d[i, j - 1], d[above, j - 1]);
      d[i, j] := cell;
    }
  }

  // ---------------------------------------------------------------------
  // Tie-breaking among candidates

  /** `(a0, a1) <= (b0, b1)` in the order of `OrderBy(first).ThenBy(second)`. */
  predicate LexLe(a: (nat, nat), b: (nat, nat))
  {
    a.0 < b.0 || (a.0 == b.0 && a.1 <= b.1)
  }

  /**
   * The index a stable sort followed by `First()` picks: a minimal key,
   * and the first one among equal minimal keys.
   */
  function FirstMinimal(keys: seq<(nat, nat)>): (k: nat)
    requires |keys| > 0
    ensures k < |keys|
    ensures forall j :: 0 <= j < |keys| ==> LexLe(keys[k], keys[j])
    ensures forall j :: 0 <= j < k ==> !LexLe(keys[j], keys[k])
  {
    if |keys| == 1 then 0
    else
      var k := FirstMinimal(keys[1..]);
      if LexLe(keys[0], keys[1..][k]) then 0 else k + 1
  }

  /** The sort keys of each candidate: the root name's distance to itself, then the path's distance to the target path. */
  function SimilarityKeys(root: GameObject, candidates: seq<Pos>, targetRelativePath: string): (keys: seq<(nat, nat)>)
    requires forall i :: 0 <= i < |candidates| ==> ValidPos(root, candidates[i])
    ensures |keys| == |candidates|
    ensures forall i :: 0 <= i < |candidates| ==>
      keys[i] == (EditDistance(root.name, root.name), EditDistance(RelativePath(root, candidates[i]), targetRelativePath))
  {
    if |candidates| == 0 then []
    else
      var n := |candidates| - 1;
      SimilarityKeys(root, candidates[..n], targetRelativePath)
      + [(EditDistance(root.name, root.name), EditDistance(RelativePath(root, candidates[n]), targetRelativePath))]
  }

  /**
   * SelectBySimilarity: orders by the edit distance of the root's name to
   * itself, then by the edit distance between each candidate's relative
   * path and the target path, and takes the first; null for no candidates.
   */
  function SelectBySimilarity(root: GameObject, candidates: seq<Pos>, targetRelativePath: string): (r: Option<Pos>)
    requires forall i :: 0 <= i < |candidates| ==> ValidPos(root, candidates[i])
    ensures r.Some? <==> |candidates| > 0
    ensures r.Some? ==> r.value in candidates
  {
    if |candidates| == 0 then None
    else if |candidates| == 1 then Some(candidates[0])
    else
      var keys := SimilarityKeys(root, candidates, targetRelativePath);
      Some(candidates[FirstMinimal(keys)])
  }

  /**
   * The first sort key is the same for every candidate, so the choice is
   * the first candidate whose path is closest to the target path.
   */
  lemma SelectBySimilarityClosestPath(root: GameObject, candidates: seq<Pos>, targetRelativePath: string)
    requires forall i :: 0 <= i < |candidates| ==> ValidPos(root, candidates[i])
    requires |candidates| > 0
    ensures var r := SelectBySimilarity(root, candidates, targetRelativePath).value;
      exists k :: 0 <= k < |candidates| && candidates[k] == r &&
        (forall j :: 0 <= j < |candidates| ==>
          EditDistance(RelativePath(root, r), targetRelativePath) <= EditDistance(RelativePath(root, candidates[j]), targetRelativePath)) &&
        (forall j :: 0 <= j < k ==>
          EditDistance(RelativePath(root, r), targetRelativePath) < EditDistance(RelativePath(root, candidates[j]), targetRelativePath))
  {
    EditDistanceSelf(root.name);
    var r := SelectBySimilarity(root, candidates, targetRelativePath).value;
    if |candidates| == 1 {
      assert candidates[0] == r;
    } else {
      var keys := SimilarityKeys(root, candidates, targetRelativePath);
      var k := FirstMinimal(keys);
      assert candidates[k] == r;
      assert forall j :: 0 <= j < |candidates| ==> keys[j].0 == 0;
      assert forall j :: 0 <= j < |candidates| ==> keys[j].1 == EditDistance(RelativePath(root, candidates[j]), targetRelativePath);
    }
  }

  /** The depth of each candidate, computed once. */
  function Depths(root: GameObject, candidates: seq<Pos>): (ds: seq<nat>)
    requires forall i :: 0 <= i < |candidates| ==> ValidPos(root, candidates[i])
    ensures |ds| == |candidates|
    ensures forall i :: 0 <= i < |candidates| ==> ds[i] == NodeDepth(root, candidates[i])
  {
    if |candidates| == 0 then []
    else Depths(root, candidates[..|candidates| - 1]) + [NodeDepth(root, candidates[|candidates| - 1])]
  }

  /** The smallest distance between a depth of `depths` and the target depth (LINQ `GroupBy` key). */
  function MinDepthGap(depths: seq<nat>, targetDepth: int): (m: nat)
    requires |depths| > 0
    ensures forall i :: 0 <= i < |depths| ==> m <= Abs(depths[i] - targetDepth)
    ensures exists i :: 0 <= i < |depths| && m == Abs(depths[i] - targetDepth)
  {
    var here := Abs(depths[0] - targetDepth);
    if |depths| == 1 then here
    else
      var rest := MinDepthGap(depths[1..], targetDepth);
      assert forall i :: 1 <= i < |depths| ==> depths[i] == depths[1..][i - 1];
      if here <= rest then here else rest
  }

  function Abs(x: int): nat
  {
    if x < 0 then -x else x
  }

  /**
   * GetBestDepthMatch: among the candidates at the target depth if there
   * are any, otherwise among those at the smallest distance from it, the
   * single one or the one chosen by similarity; null for no candidates.
   */
  function GetBestDepthMatch(root: GameObject, candidates: seq<Pos>, targetDepth: int, targetRelativePath: string): (r: Option<Pos>)
    requires forall i :: 0 <= i < |candidates| ==> ValidPos(root, candidates[i])
    ensures r.Some? <==> |candidates| > 0
    ensures r.Some? ==> r.value in candidates
    ensures r.Some? && (exists i :: 0 <= i < |candidates| && NodeDepth(root, candidates[i]) == targetDepth) ==>
      NodeDepth(root, r.value) == targetDepth
    ensures r.Some? ==> forall i :: 0 <= i < |candidates| ==>
      Abs(NodeDepth(root, r.value) - targetDepth) <= Abs(NodeDepth(root, candidates[i]) - targetDepth)
  {
    if |candidates| == 0 then None
    else
      var depths := Depths(root, candidates);
      // the candidates at the target depth are those at distance 0 from it
      var sameDepth := AtDepthGap(candidates, depths, targetDepth, 0);
      if |sameDepth.0| > 0 then
        var k := PickOne(root, sameDepth.0, targetRelativePath);
        assert sameDepth.0[k] == candidates[sameDepth.1[k]];
        Some(sameDepth.0[k])
      else
        var gap := MinDepthGap(depths, targetDepth);
        var closest := AtDepthGap(candidates, depths, targetDepth, gap);
        var k := PickOne(root, closest.0, targetRelativePath);
        assert closest.0[k] == candidates[closest.1[k]];
        Some(closest.0[k])
  }

  /**
   * The candidates whose depth is `gap` away from the target depth, in
   * order, each with its index; there is one when some candidate is.
   */
  function AtDepthGap(candidates: seq<Pos>, depths: seq<nat>, targetDepth: int, gap: nat): (r: (seq<Pos>, seq<nat>))
    requires |depths| == |candidates|
    ensures |r.0| == |r.1|
    ensures forall k :: 0 <= k < |r.0| ==> r.1[k] < |candidates| && r.0[k] == candidates[r.1[k]] && Abs(depths[r.1[k]] - targetDepth) == gap
    ensures (exists i :: 0 <= i < |candidates| && Abs(depths[i] - targetDepth) == gap) ==> |r.0| > 0
  {
    if |candidates| == 0 then ([], [])
    else
      var n := |candidates| - 1;
      var prev := AtDepthGap(candidates[..n], depths[..n], targetDepth, gap);
      if Abs(depths[n] - targetDepth) == gap then (prev.0 + [candidates[n]], prev.1 + [n])
      else
        assert forall i :: 0 <= i < n ==> candidates[..n][i] == candidates[i] && depths[..n][i] == depths[i];
        prev
  }

  /** The index of the single candidate, or of the one SelectBySimilarity chooses among several. */
  function PickOne(root: GameObject, candidates: seq<Pos>, targetRelativePath: string): (k: nat)
    requires |candidates| > 0
    requires forall i :: 0 <= i < |candidates| ==> ValidPos(root, candidates[i])
    ensures k < |candidates|
    ensures |candidates| > 1 ==> SelectBySimilarity(root, candidates, targetRelativePath) == Some(candidates[k])
  {
    if |candidates| > 1 then FirstMinimal(SimilarityKeys(root, candidates, targetRelativePath)) else 0
  }

  // ---------------------------------------------------------------------
  // Narrowing by ancestors

  /**
   * Whether the candidate's ancestor `level` steps up has the name found
   * `level` segments from the end of the target path, or, past the start
   * of that path, the root's name.
   */
  predicate KeepAtLevel(root: GameObject, p: Pos, targetParts: seq<string>, level: nat)
    requires ValidPos(root, p)
  {
    var sourceParts := PathParts(RelativePath(root, p));
    |sourceParts| > level &&
    var sourceParent := sourceParts[|sourceParts| - 1 - level];
    if |targetParts| - 1 - level >= 0 then sourceParent == targetParts[|targetParts| - 1 - level]
    else sourceParent == root.name
  }

  /** The largest candidate depth (LINQ `Max`). */
  function MaxDepth(root: GameObject, candidates: seq<Pos>): (m: nat)
    requires |candidates| > 0
    requires forall i :: 0 <= i < |candidates| ==> ValidPos(root, candidates[i])
  {
    var here := NodeDepth(root, candidates[0]);
    if |candidates| == 1 then here
    else
      var rest := MaxDepth(root, candidates[1..]);
      if here >= rest then here else rest
  }

  /** The level-by-level narrowing, from `level` up to (excluding) `maxDepth`. */
  function ParentFilterFrom(root: GameObject, candidates: seq<Pos>, targetParts: seq<string>, level: nat, maxDepth: nat): (r: seq<Pos>)
    requires forall i :: 0 <= i < |candidates| ==> ValidPos(root, candidates[i])
    ensures |candidates| > 0 ==> |r| > 0
    ensures forall i :: 0 <= i < |r| ==> r[i] in candidates
    decreases maxDepth - level
  {
    if level >= maxDepth then candidates
    else
      var filtered := Filter(candidates, p => ValidPos(root, p) && KeepAtLevel(root, p, targetParts, level));
      if |filtered| == 0 then candidates
      else if |filtered| == 1 then filtered
      else
        var r := ParentFilterFrom(root, filtered, targetParts, level + 1, maxDepth);
        assert forall i :: 0 <= i < |r| ==> r[i] in filtered;
        r
  }

  /**
   * What FilterByParentHierarchy returns: the candidates unchanged when
   * there are at most one, otherwise a non-empty selection of them.
   */
  function ParentFiltered(root: GameObject, candidates: seq<Pos>, targetRelativePath: string): (r: seq<Pos>)
    requires forall i :: 0 <= i < |candidates| ==> ValidPos(root, candidates[i])
    ensures |candidates| <= 1 ==> r == candidates
    ensures |candidates| > 0 ==> |r| > 0
    ensures forall i :: 0 <= i < |r| ==> r[i] in candidates
  {
    if |candidates| <= 1 then candidates
    else ParentFilterFrom(root, candidates, PathParts(targetRelativePath), 1, MaxDepth(root, candidates))
  }

  /**
   * FilterByParentHierarchy: for levels 1, 2, ... below the largest
   * candidate depth, keeps the candidates whose ancestor at that level
   * matches; stops when a level keeps none (keeping the previous list)
   * or exactly one.
   */
  method FilterByParentHierarchy(root: GameObject, candidates: seq<Pos>, targetRelativePath: string) returns (result: seq<Pos>)
    requires forall i :: 0 <= i < |candidates| ==> ValidPos(root, candidates[i])
    ensures result == ParentFiltered(root, candidates, targetRelativePath)
  {
    if |candidates| <= 1 {
      return candidates;
    }
    var targetParts := PathParts(targetRelativePath);
    var maxDepth := MaxDepth(root, candidates);
    var current := candidates;
    var level := 1;
    while level < maxDepth
      invariant 1 <= level
      invariant forall i :: 0 <= i < |current| ==> ValidPos(root, current[i])
      invariant ParentFilterFrom(root, current, targetParts, level, maxDepth)
             == ParentFilterFrom(root, candidates, targetParts, 1, maxDepth)
      decreases maxDepth as int - level
    {
      var filtered := Filter(current, p => ValidPos(root, p) && KeepAtLevel(root, p, targetParts, level));
      if |filtered| > 0 {
        current := filtered;
        if |current| == 1 {
          return current;
        }
      } else {
        return current;
      }
      level := level + 1;
    }
    return current;
  }

  // ---------------------------------------------------------------------
  // The four rules

  /** The nodes of the subtree that carry a Renderer, in pre-order. */
  function RendererNodes(root: GameObject): (r: seq<Pos>)
    ensures forall i :: 0 <= i < |r| ==> ValidPos(root, r[i]) && At(root, r[i]).renderer.Some?
    ensures forall p :: ValidPos(root, p) && At(root, p).renderer.Some? ==> p in r
  {
    NodesWhere(root, (g: GameObject) => g.renderer.Some?)
  }

  function ExactPathMatches(root: GameObject, objectName: string, path: string): (r: seq<Pos>)
    ensures forall i :: 0 <= i < |r| ==> ValidPos(root, r[i]) && At(root, r[i]).renderer.Some?
  {
    Filter(RendererNodes(root), p => ValidPos(root, p) && RelativePath(root, p) == path && At(root, p).name == objectName)
  }

  function SameDepthMatches(root: GameObject, objectName: string, depth: int): (r: seq<Pos>)
    ensures forall i :: 0 <= i < |r| ==> ValidPos(root, r[i]) && At(root, r[i]).renderer.Some? && At(root, r[i]).name == objectName
  {
    Filter(RendererNodes(root), p => ValidPos(root, p) && NodeDepth(root, p) == depth && At(root, p).name == objectName)
  }

  function ExactNameMatches(root: GameObject, objectName: string): (r: seq<Pos>)
    ensures forall i :: 0 <= i < |r| ==> ValidPos(root, r[i]) && At(root, r[i]).renderer.Some? && At(root, r[i]).name == objectName
  {
    Filter(RendererNodes(root), p => ValidPos(root, p) && At(root, p).name == objectName)
  }

  function IgnoreCaseMatches(root: GameObject, objectName: string): (r: seq<Pos>)
    ensures forall i :: 0 <= i < |r| ==> ValidPos(root, r[i]) && At(root, r[i]).renderer.Some? && EqualsIgnoreCase(At(root, r[i]).name, objectName)
  {
    Filter(RendererNodes(root), p => ValidPos(root, p) && EqualsIgnoreCase(At(root, p).name, objectName))
  }

  /** Narrowing by ancestors when there are several matches, then choosing by depth. */
  function ChooseAmong(root: GameObject, matches: seq<Pos>, targetDepth: int, targetRelativePath: string): (r: Option<Pos>)
    requires forall i :: 0 <= i < |matches| ==> ValidPos(root, matches[i])
    ensures r.Some? <==> |matches| > 0
    ensures r.Some? ==> r.value in matches
  {
    var narrowed := if |matches| > 1 then ParentFiltered(root, matches, targetRelativePath) else matches;
    GetBestDepthMatch(root, narrowed, targetDepth, targetRelativePath)
  }

  /**
   * FindMatchingObject: the node of the target subtree (`root`) that the
   * first applicable rule selects, or None.
   */
  function FindMatchingObject(root: Option<GameObject>, objectName: string, sourceRelativePath: string,
                              sourceDepth: int, sourceRootName: string): (r: Option<Pos>)
    ensures root.None? ==> r.None?
    ensures r.Some? ==> root.Some? && ValidPos(root.value, r.value) && At(root.value, r.value).renderer.Some?
    ensures r.Some? ==> EqualsIgnoreCase(At(root.value, r.value).name, objectName)
    ensures root.Some? && r.None? ==> |IgnoreCaseMatches(root.value, objectName)| == 0
  {
    if root.None? then None
    else
      var t := root.value;
      var exactPath := ExactPathMatches(t, objectName, sourceRelativePath);
      if |exactPath| > 0 then
        if |exactPath| > 1 && sourceRootName != "" then
          var rootNameMatches := Filter(exactPath, p => t.name == sourceRootName);
          if |rootNameMatches| > 0 then Some(rootNameMatches[0]) else Some(exactPath[0])
        else Some(exactPath[0])
      else
        var sameDepth := SameDepthMatches(t, objectName, sourceDepth);
        if |sameDepth| > 0 then ChooseAmong(t, sameDepth, sourceDepth, sourceRelativePath)
        else
          var exactName := ExactNameMatches(t, objectName);
          if |exactName| > 0 then ChooseAmong(t, exactName, sourceDepth, sourceRelativePath)
          else
            var ignoreCase := IgnoreCaseMatches(t, objectName);
            ChooseAmong(t, ignoreCase, sourceDepth, sourceRelativePath)
  }

  /**
   * Rule 1: when some Renderer node has exactly the recorded relative path
   * and name, the first such node in pre-order is chosen, whatever the
   * recorded root name (that test looks at the target root, not at the
   * candidates, so it keeps all of them or none).
   */
  lemma FindMatchingObjectExactPath(t: GameObject, objectName: string, path: string, depth: int, rootName: string)
    requires |ExactPathMatches(t, objectName, path)| > 0
    ensures FindMatchingObject(Some(t), objectName, path, depth, rootName) == Some(ExactPathMatches(t, objectName, path)[0])
    ensures FindMatchingObject(Some(t), objectName, path, depth, rootName) == FindMatchingObject(Some(t), objectName, path, depth, "")
  {
    var exactPath := ExactPathMatches(t, objectName, path);
    if |exactPath| > 1 && rootName != "" && t.name == rootName {
      FilterAll(exactPath, p => t.name == rootName);
    }
  }

  /** The first rule's pick is the first node in pre-order with that path, name and a Renderer. */
  lemma ExactPathMatchesFirst(t: GameObject, objectName: string, path: string)
    requires |ExactPathMatches(t, objectName, path)| > 0
    ensures var q := ExactPathMatches(t, objectName, path)[0];
      ValidPos(t, q) && At(t, q).renderer.Some? && RelativePath(t, q) == path && At(t, q).name == objectName
  {
    var q := ExactPathMatches(t, objectName, path)[0];
    assert q in ExactPathMatches(t, objectName, path);
  }

  /** Whenever some Renderer node has exactly the name, the chosen node has exactly that name. */
  lemma FindMatchingObjectPrefersExactName(t: GameObject, objectName: string, path: string, depth: int, rootName: string)
    requires exists p :: ValidPos(t, p) && At(t, p).renderer.Some? && At(t, p).name == objectName
    ensures var r := FindMatchingObject(Some(t), objectName, path, depth, rootName);
      r.Some? && At(t, r.value).name == objectName
  {
    if |ExactPathMatches(t, objectName, path)| > 0 {
      FindMatchingObjectExactPath(t, objectName, path, depth, rootName);
      ExactPathMatchesFirst(t, objectName, path);
    } else {
      FindMatchingObjectLaterRules(t, objectName, path, depth, rootName);
    }
  }

  /**
   * Without an exact-path match the later rules decide in priority order:
   * a Renderer node with exactly the name at the recorded depth wins; failing
   * that, one with exactly the name anywhere; failing that, the result is a
   * node whose name matches ignoring case, and one is found whenever such a
   * node exists.
   */
  lemma {:induction false} FindMatchingObjectLaterRules(t: GameObject, objectName: string, path: string, depth: int, rootName: string)
    requires |ExactPathMatches(t, objectName, path)| == 0
    ensures var r := FindMatchingObject(Some(t), objectName, path, depth, rootName);
      (exists p :: ValidPos(t, p) && At(t, p).renderer.Some? && At(t, p).name == objectName && NodeDepth(t, p) == depth) ==>
        r.Some? && At(t, r.value).name == objectName && NodeDepth(t, r.value) == depth
    ensures var r := FindMatchingObject(Some(t), objectName, path, depth, rootName);
      (exists p :: ValidPos(t, p) && At(t, p).renderer.Some? && At(t, p).name == objectName) ==>
        r.Some? && At(t, r.value).name == objectName
    ensures var r := FindMatchingObject(Some(t), objectName, path, depth, rootName);
      (forall p :: ValidPos(t, p) && At(t, p).renderer.Some? ==> At(t, p).name != objectName) ==>
        (r.Some? <==> exists p :: ValidPos(t, p) && At(t, p).renderer.Some? && EqualsIgnoreCase(At(t, p).name, objectName))
  {
    if exists p :: ValidPos(t, p) && At(t, p).renderer.Some? && At(t, p).name == objectName && NodeDepth(t, p) == depth {
      LaterRulesSameDepth(t, objectName, path, depth, rootName);
    }
    if exists p :: ValidPos(t, p) && At(t, p).renderer.Some? && At(t, p).name == objectName {
      LaterRulesExactName(t, objectName, path, depth, rootName);
    }
    FindMatchingObjectNone(t, objectName, path, depth, rootName);
  }

  lemma LaterRulesSameDepth(t: GameObject, objectName: string, path: string, depth: int, rootName: string)
    requires |ExactPathMatches(t, objectName, path)| == 0
    requires exists p :: ValidPos(t, p) && At(t, p).renderer.Some? && At(t, p).name == objectName && NodeDepth(t, p) == depth
    ensures var r := FindMatchingObject(Some(t), objectName, path, depth, rootName);
      r.Some? && At(t, r.value).name == objectName && NodeDepth(t, r.value) == depth
  {
    var sameDepth := SameDepthMatches(t, objectName, depth);
    var p :| ValidPos(t, p) && At(t, p).renderer.Some? && At(t, p).name == objectName && NodeDepth(t, p) == depth;
    assert p in RendererNodes(t);
    assert p in sameDepth;
    var r := ChooseAmong(t, sameDepth, depth, path);
    assert FindMatchingObject(Some(t), objectName, path, depth, rootName) == r;
    FilterMember(RendererNodes(t), q => ValidPos(t, q) && NodeDepth(t, q) == depth && At(t, q).name == objectName, r.value);
  }

  lemma LaterRulesExactName(t: GameObject, objectName: string, path: string, depth: int, rootName: string)
    requires |ExactPathMatches(t, objectName, path)| == 0
    requires exists p :: ValidPos(t, p) && At(t, p).renderer.Some? && At(t, p).name == objectName
    ensures var r := FindMatchingObject(Some(t), objectName, path, depth, rootName);
      r.Some? && At(t, r.value).name == objectName
  {
    var sameDepth := SameDepthMatches(t, objectName, depth);
    var exactName := ExactNameMatches(t, objectName);
    var p :| ValidPos(t, p) && At(t, p).renderer.Some? && At(t, p).name == objectName;
    assert p in RendererNodes(t);
    assert p in exactName;
    ChooseAmongKeepsName(t, sameDepth, depth, path, objectName);
    ChooseAmongKeepsName(t, exactName, depth, path, objectName);
  }

  /** Choosing among nodes that all bear one name yields a node with that name. */
  lemma ChooseAmongKeepsName(t: GameObject, matches: seq<Pos>, depth: int, path: string, name: string)
    requires forall i :: 0 <= i < |matches| ==> ValidPos(t, matches[i]) && At(t, matches[i]).name == name
    ensures var r := ChooseAmong(t, matches, depth, path);
      r.Some? ==> ValidPos(t, r.value) && At(t, r.value).name == name
  {
    var r := ChooseAmong(t, matches, depth, path);
    if r.Some? {
      var k :| 0 <= k < |matches| && matches[k] == r.value;
    }
  }

  /** Nothing is found exactly when no Renderer node's name matches even ignoring case. */
  lemma FindMatchingObjectNone(t: GameObject, objectName: string, path: string, depth: int, rootName: string)
    ensures FindMatchingObject(Some(t), objectName, path, depth, rootName).None? <==>
      forall p :: ValidPos(t, p) && At(t, p).renderer.Some? ==> !EqualsIgnoreCase(At(t, p).name, objectName)
  {
    var r := FindMatchingObject(Some(t), objectName, path, depth, rootName);
    if p :| ValidPos(t, p) && At(t, p).renderer.Some? && EqualsIgnoreCase(At(t, p).name, objectName) {
      IgnoreCaseMatchesComplete(t, objectName, p);
      assert r.Some?;
    }
  }

  lemma IgnoreCaseMatchesComplete(t: GameObject, objectName: string, p: Pos)
    requires ValidPos(t, p) && At(t, p).renderer.Some? && EqualsIgnoreCase(At(t, p).name, objectName)
    ensures p in IgnoreCaseMatches(t, objectName)
  {
    assert p in RendererNodes(t);
    FilterMember(RendererNodes(t), q => ValidPos(t, q) && EqualsIgnoreCase(At(t, q).name, objectName), p);
  }
}
