/**
 * The depth-limited recursive walk both MaterialSetupCopier classes use
 * to record the material setup of a hierarchy, and the subtree queries
 * over renderers they share (HasMaterials, GetMaterialStats).
 *
 * A walk visits a node, records it when its Renderer has at least one
 * material slot, and then walks the children in index order with the
 * node's path extended by the child's name; nodes at depth 10 or more
 * are not visited.
 */
module HierarchyScan {
  import opened Collections
  import opened Text
  import opened Scene

  /** MAX_HIERARCHY_DEPTH of both copiers. */
  const MaxHierarchyDepth: nat := 10

  /** A node the walk records, with the path and depth it had when visited. */
  datatype Hit = Hit(node: GameObject, path: string, depth: nat)

  /** A Renderer with a non-empty `sharedMaterials` array. */
  predicate Recorded(g: GameObject)
  {
    g.renderer.Some? && |g.renderer.value.sharedMaterials| > 0
  }

  /** A child's path: its name alone under an empty path, otherwise the parent path, '/', its name. */
  function ExtendPath(path: string, name: string): string
  {
    if path == "" then name else path + "/" + name
  }

  /** The path reached from `base` by extending it with each name in turn. */
  function PathFrom(base: string, names: seq<string>): string
    decreases |names|
  {
    if |names| == 0 then base else PathFrom(ExtendPath(base, names[0]), names[1..])
  }

  /**
   * With non-empty names the step-by-step paths are the '/'-joined names,
   * behind the base and a '/' when the base is not empty.
   */
  lemma {:induction false} PathFromJoin(base: string, names: seq<string>)
    requires |names| > 0
    requires forall i :: 0 <= i < |names| ==> names[i] != ""
    ensures PathFrom(base, names) == if base == "" then Join(names, '/') else base + "/" + Join(names, '/')
    decreases |names|
  {
    var next := ExtendPath(base, names[0]);
    assert next != "";
    if |names| > 1 {
      PathFromJoin(next, names[1..]);
      JoinCons(names[0], names[1..], '/');
      assert names == [names[0]] + names[1..];
    }
  }

  /** The records of the walk of `t`, visited with path `path` at depth `depth`. */
  function Hits(t: GameObject, path: string, depth: nat): seq<Hit>
    decreases t, 1
  {
    if depth >= MaxHierarchyDepth then []
    else (if Recorded(t) then [Hit(t, path, depth)] else []) + ChildHits(t, path, depth, 0)
  }

  /** The records of the walks of the children from index `i` on. */
  function ChildHits(t: GameObject, path: string, depth: nat, i: nat): seq<Hit>
    requires i <= |t.children|
    decreases t, 0, |t.children| - i
  {
    if i == |t.children| then []
    else Hits(t.children[i], ExtendPath(path, t.children[i].name), depth + 1) + ChildHits(t, path, depth, i + 1)
  }

  /** The record a walk of `t` from `path` at `depth` makes for the node at `p`, if any. */
  function HitAt(t: GameObject, p: Pos, path: string, depth: nat): seq<Hit>
  {
    if ValidPos(t, p) && depth + |p| < MaxHierarchyDepth && Recorded(At(t, p))
    then [Hit(At(t, p), PathFrom(path, NamesBelow(t, p)), depth + |p|)]
    else []
  }

  /** The records for the positions `ps`, in the order of `ps`. */
  function HitsAt(t: GameObject, ps: seq<Pos>, path: string, depth: nat): seq<Hit>
  {
    if |ps| == 0 then [] else HitAt(t, ps[0], path, depth) + HitsAt(t, ps[1..], path, depth)
  }

  lemma {:induction false} HitsAtConcat(t: GameObject, a: seq<Pos>, b: seq<Pos>, path: string, depth: nat)
    ensures HitsAt(t, a + b, path, depth) == HitsAt(t, a, path, depth) + HitsAt(t, b, path, depth)
  {
    if |a| == 0 {
      assert a + b == b;
    } else {
      assert (a + b)[0] == a[0];
      assert (a + b)[1..] == a[1..] + b;
      HitsAtConcat(t, a[1..], b, path, depth);
    }
  }

  /** A position under child `i` gives the record the child's own walk gives for it. */
  lemma HitAtPrefixed(t: GameObject, i: nat, q: Pos, path: string, depth: nat)
    requires i < |t.children|
    ensures HitAt(t, [i] + q, path, depth) == HitAt(t.children[i], q, ExtendPath(path, t.children[i].name), depth + 1)
  {
    var c := t.children[i];
    assert ([i] + q)[0] == i && ([i] + q)[1..] == q;
    if ValidPos(c, q) {
      assert NamesBelow(t, [i] + q) == [c.name] + NamesBelow(c, q);
      assert ([c.name] + NamesBelow(c, q))[1..] == NamesBelow(c, q);
    }
  }

  /** Positions under child `i` give the records the child's own walk gives. */
  lemma {:induction false} HitsAtPrefixed(t: GameObject, i: nat, ps: seq<Pos>, path: string, depth: nat)
    requires i < |t.children|
    ensures HitsAt(t, Prefixed(i, ps), path, depth)
         == HitsAt(t.children[i], ps, ExtendPath(path, t.children[i].name), depth + 1)
  {
    if |ps| > 0 {
      assert Prefixed(i, ps)[0] == [i] + ps[0];
      assert Prefixed(i, ps)[1..] == Prefixed(i, ps[1..]);
      HitAtPrefixed(t, i, ps[0], path, depth);
      HitsAtPrefixed(t, i, ps[1..], path, depth);
    }
  }

  /** At depth 10 or more nothing is recorded. */
  lemma {:induction false} HitsAtTooDeep(t: GameObject, ps: seq<Pos>, path: string, depth: nat)
    requires depth >= MaxHierarchyDepth
    ensures HitsAt(t, ps, path, depth) == []
  {
    if |ps| > 0 {
      HitsAtTooDeep(t, ps[1..], path, depth);
    }
  }

  /**
   * The walk records exactly the nodes of the subtree, in pre-order, that
   * lie less than 10 levels below the start depth and whose Renderer has
   * a material slot, each with the path built from the names below `t`.
   */
  lemma {:induction false} HitsPreOrder(t: GameObject, path: string, depth: nat)
    ensures Hits(t, path, depth) == HitsAt(t, PreOrder(t), path, depth)
    decreases t, 1
  {
    if depth >= MaxHierarchyDepth {
      HitsAtTooDeep(t, PreOrder(t), path, depth);
    } else {
      HitsAtConcat(t, [[]], ChildrenPreOrder(t, 0), path, depth);
      assert HitsAt(t, [[]], path, depth) == HitAt(t, [], path, depth);
      ChildHitsPreOrder(t, path, depth, 0);
    }
  }

  lemma {:induction false} ChildHitsPreOrder(t: GameObject, path: string, depth: nat, i: nat)
    requires i <= |t.children|
    ensures ChildHits(t, path, depth, i) == HitsAt(t, ChildrenPreOrder(t, i), path, depth)
    decreases t, 0, |t.children| - i
  {
    if i < |t.children| {
      var c := t.children[i];
      HitsAtConcat(t, Prefixed(i, PreOrder(c)), ChildrenPreOrder(t, i + 1), path, depth);
      HitsAtPrefixed(t, i, PreOrder(c), path, depth);
      HitsPreOrder(c, ExtendPath(path, c.name), depth + 1);
      ChildHitsPreOrder(t, path, depth, i + 1);
    }
  }

  /** What a record for given positions says about the node it stands for. */
  lemma {:induction false} HitsAtMember(t: GameObject, ps: seq<Pos>, path: string, depth: nat, h: Hit)
    requires h in HitsAt(t, ps, path, depth)
    ensures exists p :: (p in ps && ValidPos(t, p) && Recorded(At(t, p)) &&
                         h == Hit(At(t, p), PathFrom(path, NamesBelow(t, p)), depth + |p|))
    ensures h.depth < MaxHierarchyDepth
  {
    if h in HitAt(t, ps[0], path, depth) {
      assert ps[0] in ps;
    } else {
      HitsAtMember(t, ps[1..], path, depth, h);
      var p :| p in ps[1..] && ValidPos(t, p) && Recorded(At(t, p)) &&
        h == Hit(At(t, p), PathFrom(path, NamesBelow(t, p)), depth + |p|);
      assert p in ps;
    }
  }

  /** Every recorded node within reach has its record. */
  lemma {:induction false} HitsAtComplete(t: GameObject, ps: seq<Pos>, path: string, depth: nat, p: Pos)
    requires p in ps && ValidPos(t, p) && Recorded(At(t, p)) && depth + |p| < MaxHierarchyDepth
    ensures Hit(At(t, p), PathFrom(path, NamesBelow(t, p)), depth + |p|) in HitsAt(t, ps, path, depth)
  {
    if ps[0] != p {
      HitsAtComplete(t, ps[1..], path, depth, p);
    }
  }

  /** The walk from the root at depth 0: records in pre-order, all shallower than 10. */
  lemma WalkRecords(t: GameObject, path: string, h: Hit)
    requires h in Hits(t, path, 0)
    ensures h.depth < MaxHierarchyDepth
    ensures exists p :: (ValidPos(t, p) && |p| == h.depth && Recorded(At(t, p)) &&
                         h.node == At(t, p) && h.path == PathFrom(path, NamesBelow(t, p)))
  {
    HitsPreOrder(t, path, 0);
    HitsAtMember(t, PreOrder(t), path, 0, h);
  }

  lemma WalkComplete(t: GameObject, path: string, p: Pos)
    requires ValidPos(t, p) && Recorded(At(t, p)) && |p| < MaxHierarchyDepth
    ensures Hit(At(t, p), PathFrom(path, NamesBelow(t, p)), |p|) in Hits(t, path, 0)
  {
    HitsPreOrder(t, path, 0);
    PreOrderValid(t, p);
    HitsAtComplete(t, PreOrder(t), path, 0, p);
  }

  // ---------------------------------------------------------------------
  // HasMaterials and GetMaterialStats (identical in both copiers)

  /** `GetComponentsInChildren<Renderer>(true)`: the renderers of the subtree, in pre-order. */
  function RenderersIn(t: GameObject): seq<Renderer>
    decreases t, 1
  {
    (if t.renderer.Some? then [t.renderer.value] else []) + ChildRenderers(t, 0)
  }

  function ChildRenderers(t: GameObject, i: nat): seq<Renderer>
    requires i <= |t.children|
    decreases t, 0, |t.children| - i
  {
    if i == |t.children| then [] else RenderersIn(t.children[i]) + ChildRenderers(t, i + 1)
  }

  /** Every renderer listed belongs to a node of the subtree. */
  lemma {:induction false} RendererNode(t: GameObject, r: Renderer) returns (p: Pos)
    requires r in RenderersIn(t)
    ensures ValidPos(t, p) && At(t, p).renderer == Some(r)
    decreases t, 1
  {
    if t.renderer == Some(r) {
      return [];
    }
    var q, i := ChildRendererNode(t, 0, r);
    p := [i] + q;
    assert p[1..] == q;
  }

  lemma {:induction false} ChildRendererNode(t: GameObject, i: nat, r: Renderer) returns (q: Pos, j: nat)
    requires i <= |t.children| && r in ChildRenderers(t, i)
    ensures i <= j < |t.children| && ValidPos(t.children[j], q) && At(t.children[j], q).renderer == Some(r)
    decreases t, 0, |t.children| - i
  {
    if r in RenderersIn(t.children[i]) {
      q := RendererNode(t.children[i], r);
      j := i;
    } else {
      q, j := ChildRendererNode(t, i + 1, r);
    }
  }

  /** Every node's renderer is listed. */
  lemma {:induction false} NodeRenderer(t: GameObject, p: Pos)
    requires ValidPos(t, p) && At(t, p).renderer.Some?
    ensures At(t, p).renderer.value in RenderersIn(t)
    decreases |p|
  {
    if |p| > 0 {
      NodeRenderer(t.children[p[0]], p[1..]);
      ChildRenderersFrom(t, 0, p[0], At(t, p).renderer.value);
    }
  }

  lemma {:induction false} ChildRenderersFrom(t: GameObject, i: nat, j: nat, r: Renderer)
    requires i <= j < |t.children| && r in RenderersIn(t.children[j])
    ensures r in ChildRenderers(t, i)
    decreases j - i
  {
    if i < j {
      ChildRenderersFrom(t, i + 1, j, r);
    }
  }

  predicate HasSlots(r: Renderer)
  {
    |r.sharedMaterials| > 0
  }

  function SlotCount(r: Renderer): int
  {
    |r.sharedMaterials|
  }

  /** HasMaterials: some renderer of the subtree has a material slot; false for null. */
  method HasMaterials(go: Option<GameObject>) returns (has: bool)
    ensures has <==> go.Some? && exists p :: ValidPos(go.value, p) && Recorded(At(go.value, p))
  {
    if go.None? {
      return false;
    }
    var t := go.value;
    var renderers := RenderersIn(t);
    for i := 0 to |renderers|
      invariant forall k :: 0 <= k < i ==> !HasSlots(renderers[k])
    {
      if |renderers[i].sharedMaterials| > 0 {
        var p := RendererNode(t, renderers[i]);
        assert Recorded(At(t, p));
        return true;
      }
    }
    if p :| ValidPos(t, p) && Recorded(At(t, p)) {
      NodeRenderer(t, p);
    }
    return false;
  }

  /**
   * GetMaterialStats: how many renderers of the subtree have a material
   * slot, and how many slots they have together; (0, 0) for null.
   */
  method GetMaterialStats(go: Option<GameObject>) returns (objectCount: nat, materialCount: nat)
    ensures go.None? ==> objectCount == 0 && materialCount == 0
    ensures go.Some? ==> objectCount == |Filter(RenderersIn(go.value), HasSlots)|
    ensures go.Some? ==> materialCount == Sum(Map(Filter(RenderersIn(go.value), HasSlots), SlotCount))
  {
    if go.None? {
      return 0, 0;
    }
    var renderers := RenderersIn(go.value);
    objectCount, materialCount := 0, 0;
    for i := 0 to |renderers|
      invariant objectCount == |Filter(renderers[..i], HasSlots)|
      invariant materialCount == Sum(Map(Filter(renderers[..i], HasSlots), SlotCount))
    {
      StatsStep(renderers, i);
      if |renderers[i].sharedMaterials| > 0 {
        objectCount := objectCount + 1;
        materialCount := materialCount + |renderers[i].sharedMaterials|;
      }
    }
    assert renderers[..|renderers|] == renderers;
  }

  /** One more renderer adds itself and its slots to the statistics when it has a slot. */
  lemma StatsStep(s: seq<Renderer>, i: nat)
    requires i < |s|
    ensures |Filter(s[..i + 1], HasSlots)| == |Filter(s[..i], HasSlots)| + (if HasSlots(s[i]) then 1 else 0)
    ensures Sum(Map(Filter(s[..i + 1], HasSlots), SlotCount))
         == Sum(Map(Filter(s[..i], HasSlots), SlotCount)) + (if HasSlots(s[i]) then SlotCount(s[i]) else 0)
  {
    assert s[..i + 1] == s[..i] + [s[i]];
    FilterConcat(s[..i], [s[i]], HasSlots);
    var kept := Filter(s[..i], HasSlots);
    MapConcat(kept, Filter([s[i]], HasSlots), SlotCount);
    SumConcat(Map(kept, SlotCount), Map(Filter([s[i]], HasSlots), SlotCount));
  }
}
