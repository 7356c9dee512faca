/**
 * The data layer of the Component Manager window (ComponentDataManager):
 * the component rows of every registered GameObject of a target's
 * subtree, their selection flags, the breadth-first display order, and
 * the GameObject-name, path and component-name filters.
 *
 * Rows are values: a row's `isSelected` flag is changed by replacing the
 * row in its object's list.
 */
module ComponentData {
  import opened Collections
  import opened Text
  import opened Scene
  import opened SubtreeOrder
  import ComponentPaths

  /** One row of the component list. */
  datatype ComponentInfo = ComponentInfo(gameObject: ObjectRef, component: Component, isSelected: bool)

  /** ComponentInfo.Name: the component's type name, or "Missing Component" for a missing script. */
  function Name(info: ComponentInfo): (r: string)
    ensures info.component.MissingComponent? ==> r == "Missing Component"
    ensures info.component.Component? ==> r == info.component.typeName
  {
    if info.component.MissingComponent? then "Missing Component" else info.component.typeName
  }

  // ---------------------------------------------------------------------
  // Registration

  /** The registration filter: a component that is present and is not the Transform. */
  predicate Listed(c: Component)
  {
    c.Component? && !c.isTransform
  }

  /** The rows of object `r` with components `comps`: its listed components in order, unselected. */
  function InfosOf(r: ObjectRef, comps: seq<Component>): seq<ComponentInfo>
  {
    if |comps| == 0 then []
    else (if Listed(comps[0]) then [ComponentInfo(r, comps[0], false)] else []) + InfosOf(r, comps[1..])
  }

  /** The rows are the LINQ `Where(c != null && !(c is Transform)).Select(...)` of the components. */
  lemma {:induction false} InfosOfSelectWhere(r: ObjectRef, comps: seq<Component>)
    ensures InfosOf(r, comps) == Map(Filter(comps, Listed), c => ComponentInfo(r, c, false))
  {
    var f := (c: Component) => ComponentInfo(r, c, false);
    if |comps| > 0 {
      InfosOfSelectWhere(r, comps[1..]);
      var head: seq<Component> := if Listed(comps[0]) then [comps[0]] else [];
      assert Filter(comps, Listed) == head + Filter(comps[1..], Listed);
      MapConcat(head, Filter(comps[1..], Listed), f);
    }
  }

  /**
   * Every row belongs to `r`, is unselected and holds a listed component of
   * `comps`; every listed component has its row; there are rows exactly
   * when some component is listed.
   */
  lemma {:induction false} InfosOfSpec(r: ObjectRef, comps: seq<Component>)
    ensures forall i :: 0 <= i < |InfosOf(r, comps)| ==>
      var info := InfosOf(r, comps)[i];
      info.gameObject == r && !info.isSelected && Listed(info.component) && info.component in comps
    ensures forall c :: c in comps && Listed(c) ==> ComponentInfo(r, c, false) in InfosOf(r, comps)
    ensures |InfosOf(r, comps)| > 0 <==> exists c :: c in comps && Listed(c)
  {
    if |comps| > 0 {
      InfosOfSpec(r, comps[1..]);
      var head: seq<ComponentInfo> := if Listed(comps[0]) then [ComponentInfo(r, comps[0], false)] else [];
      var rest := InfosOf(r, comps[1..]);
      assert InfosOf(r, comps) == head + rest;
      assert forall c :: c in comps ==> c == comps[0] || c in comps[1..];
      forall i | 0 <= i < |head + rest|
        ensures (head + rest)[i].gameObject == r && !(head + rest)[i].isSelected
          && Listed((head + rest)[i].component) && (head + rest)[i].component in comps
      {
        if i >= |head| {
          assert (head + rest)[i] == rest[i - |head|];
        }
      }
      if |head + rest| > 0 && !Listed(comps[0]) {
        var c :| c in comps[1..] && Listed(c);
        assert c in comps;
      }
    }
  }

  /** Whether RefreshComponentsList registers the object at `r`. */
  predicate Registered(scene: seq<GameObject>, r: ObjectRef, showEmptyObjects: bool)
    requires InScene(scene, r)
  {
    |InfosOf(r, SceneAt(scene, r).components)| > 0 || showEmptyObjects
  }

  function RegisteredIn(scene: seq<GameObject>, showEmptyObjects: bool): ObjectRef -> bool
  {
    r => InScene(scene, r) && Registered(scene, r, showEmptyObjects)
  }

  /** The objects RefreshComponentsList registers for target `a`, in registration order. */
  function RegisteredObjects(scene: seq<GameObject>, a: ObjectRef, showEmptyObjects: bool): seq<ObjectRef>
    requires InScene(scene, a)
  {
    Filter(Subtree(scene, a), RegisteredIn(scene, showEmptyObjects))
  }

  /**
   * What RefreshComponentsList has built after visiting `done`: the
   * registered objects of `done` in order as keys, their rows, and an
   * unselected flag for each.
   */
  ghost predicate Registry(scene: seq<GameObject>, done: seq<ObjectRef>, showEmptyObjects: bool,
                           m: map<ObjectRef, seq<ComponentInfo>>, ks: seq<ObjectRef>, st: map<ObjectRef, bool>)
  {
    ks == Filter(done, RegisteredIn(scene, showEmptyObjects)) && Tables(scene, m, ks, st)
  }

  /** The dictionaries hold exactly the keys `ks`, with each object's rows and an unselected flag. */
  ghost predicate Tables(scene: seq<GameObject>, m: map<ObjectRef, seq<ComponentInfo>>, ks: seq<ObjectRef>, st: map<ObjectRef, bool>)
  {
    && (forall x :: x in m <==> x in ks)
    && (forall x | x in m :: InScene(scene, x) && m[x] == InfosOf(x, SceneAt(scene, x).components))
    && (forall x :: x in st <==> x in ks)
    && (forall x | x in st :: !st[x])
  }

  /** Adding a new key with its rows and an unselected flag keeps the dictionaries in step with the keys. */
  lemma TablesAdd(scene: seq<GameObject>, m: map<ObjectRef, seq<ComponentInfo>>, ks: seq<ObjectRef>, st: map<ObjectRef, bool>, go: ObjectRef)
    requires Tables(scene, m, ks, st) && InScene(scene, go)
    ensures Tables(scene, m[go := InfosOf(go, SceneAt(scene, go).components)], ks + [go], st[go := false])
  {
  }

  /** Visiting an object that is not registered leaves the registry as it is. */
  lemma RegistrySkip(scene: seq<GameObject>, done: seq<ObjectRef>, go: ObjectRef, showEmptyObjects: bool,
                     m: map<ObjectRef, seq<ComponentInfo>>, ks: seq<ObjectRef>, st: map<ObjectRef, bool>)
    requires InScene(scene, go) && !Registered(scene, go, showEmptyObjects)
    requires Registry(scene, done, showEmptyObjects, m, ks, st)
    ensures Registry(scene, done + [go], showEmptyObjects, m, ks, st)
  {
    var f := RegisteredIn(scene, showEmptyObjects);
    FilterSnoc(done, go, f);
    assert !f(go);
  }

  /** Visiting a registered object not visited before adds it as the last key, with its rows and an unselected flag. */
  lemma RegistryAdd(scene: seq<GameObject>, done: seq<ObjectRef>, go: ObjectRef, showEmptyObjects: bool,
                    m: map<ObjectRef, seq<ComponentInfo>>, ks: seq<ObjectRef>, st: map<ObjectRef, bool>)
    requires InScene(scene, go) && go !in done && Registered(scene, go, showEmptyObjects)
    requires Registry(scene, done, showEmptyObjects, m, ks, st)
    ensures go !in m
    ensures Registry(scene, done + [go], showEmptyObjects,
                     m[go := InfosOf(go, SceneAt(scene, go).components)], ks + [go], st[go := false])
  {
    var f := RegisteredIn(scene, showEmptyObjects);
    FilterSnoc(done, go, f);
    assert f(go);
    assert forall k :: 0 <= k < |ks| ==> ks[k] in done;
    TablesAdd(scene, m, ks, st, go);
  }

  /**
   * One iteration of the registration loop: an object with a listed
   * component (or any object when empty objects are shown) is added
   * under its own key with its rows and an unselected flag.
   */
  method RegisterObject(scene: seq<GameObject>, ghost done: seq<ObjectRef>, go: ObjectRef, showEmptyObjects: bool,
                        m: map<ObjectRef, seq<ComponentInfo>>, ks: seq<ObjectRef>, st: map<ObjectRef, bool>)
    returns (m': map<ObjectRef, seq<ComponentInfo>>, ks': seq<ObjectRef>, st': map<ObjectRef, bool>)
    requires InScene(scene, go) && go !in done
    requires Registry(scene, done, showEmptyObjects, m, ks, st)
    ensures Registry(scene, done + [go], showEmptyObjects, m', ks', st')
  {
    m', ks', st' := m, ks, st;
    var infos := InfosOf(go, SceneAt(scene, go).components);
    if |infos| > 0 || showEmptyObjects {
      RegistryAdd(scene, done, go, showEmptyObjects, m, ks, st);
      if go !in m' {
        ks' := ks' + [go];
      }
      m' := m'[go := infos];
      st' := st'[go := false];
    } else {
      RegistrySkip(scene, done, go, showEmptyObjects, m, ks, st);
    }
  }

  /** A registry built over a whole subtree has distinct keys and rows owned by their objects. */
  lemma RegistryValid(scene: seq<GameObject>, a: ObjectRef, showEmptyObjects: bool,
                      m: map<ObjectRef, seq<ComponentInfo>>, ks: seq<ObjectRef>, st: map<ObjectRef, bool>)
    requires InScene(scene, a)
    requires ks == RegisteredObjects(scene, a, showEmptyObjects) && Tables(scene, m, ks, st)
    ensures Distinct(ks) && RowsOwned(m)
  {
    SubtreeFacts(scene, a);
    FilterDistinct(Subtree(scene, a), RegisteredIn(scene, showEmptyObjects));
    forall x | x in m
      ensures forall i :: 0 <= i < |m[x]| ==> m[x][i].gameObject == x
    {
      InfosOfSpec(x, SceneAt(scene, x).components);
    }
  }

  /**
   * The registration loop of RefreshComponentsList: visits the target's
   * subtree in pre-order and registers each object that has a listed
   * component, or every object when empty objects are shown.
   */
  method CollectComponents(scene: seq<GameObject>, transforms: seq<ObjectRef>, showEmptyObjects: bool)
    returns (m: map<ObjectRef, seq<ComponentInfo>>, ks: seq<ObjectRef>, st: map<ObjectRef, bool>)
    requires AllInScene(scene, transforms) && Distinct(transforms)
    ensures ks == Filter(transforms, RegisteredIn(scene, showEmptyObjects))
    ensures Tables(scene, m, ks, st)
  {
    m, ks, st := map[], [], map[];
    for i := 0 to |transforms|
      invariant Registry(scene, transforms[..i], showEmptyObjects, m, ks, st)
    {
      var go := transforms[i];
      DistinctPrefix(transforms, i);
      m, ks, st := RegisterObject(scene, transforms[..i], go, showEmptyObjects, m, ks, st);
      assert transforms[..i + 1] == transforms[..i] + [go];
    }
    assert transforms[..|transforms|] == transforms;
  }

  /**
   * An object is registered exactly when it is the target or below it and
   * has a listed component, or empty objects are shown; none twice.
   */
  lemma RegisteredObjectsSpec(scene: seq<GameObject>, a: ObjectRef, showEmptyObjects: bool, x: ObjectRef)
    requires InScene(scene, a)
    ensures x in RegisteredObjects(scene, a, showEmptyObjects) <==>
      InScene(scene, x) && a <= x && (showEmptyObjects || exists c :: c in SceneAt(scene, x).components && Listed(c))
    ensures Distinct(RegisteredObjects(scene, a, showEmptyObjects))
  {
    FilterMember(Subtree(scene, a), RegisteredIn(scene, showEmptyObjects), x);
    SubtreeMember(scene, a, x);
    if InScene(scene, x) {
      InfosOfSpec(x, SceneAt(scene, x).components);
    }
    SubtreeFacts(scene, a);
    FilterDistinct(Subtree(scene, a), RegisteredIn(scene, showEmptyObjects));
  }

  // ---------------------------------------------------------------------
  // Breadth-first order

  function InSet(s: set<ObjectRef>): ObjectRef -> bool
  {
    x => x in s
  }

  /** The objects GetOrderedGameObjects lists: the registered ones, in breadth-first order. */
  function OrderedObjects(scene: seq<GameObject>, target: Option<ObjectRef>, registered: set<ObjectRef>): seq<ObjectRef>
    requires target.Some? ==> InScene(scene, target.value)
  {
    if target.None? then [] else
      assert AllInScene(scene, [target.value]);
      Filter(Bfs(scene, [target.value]), InSet(registered))
  }

  /**
   * The ordered list holds each registered object of the target's subtree
   * once, and no other object, and never lists an object before a
   * shallower one.
   */
  lemma OrderedObjectsSpec(scene: seq<GameObject>, target: ObjectRef, registered: set<ObjectRef>)
    requires InScene(scene, target)
    ensures multiset(OrderedObjects(scene, Some(target), registered))
      == multiset(Filter(Subtree(scene, target), InSet(registered)))
    ensures Distinct(OrderedObjects(scene, Some(target), registered))
    ensures ByDepth(OrderedObjects(scene, Some(target), registered))
  {
    BreadthFirst(scene, target, InSet(registered));
  }

  /** One dequeue of the breadth-first walk, seen through a filter. */
  lemma FilteredBfsStep(scene: seq<GameObject>, q: seq<ObjectRef>, f: ObjectRef -> bool)
    requires |q| > 0 && AllInScene(scene, q)
    ensures AllInScene(scene, Next(scene, q))
    ensures |Forest(scene, Next(scene, q))| < |Forest(scene, q)|
    ensures Filter(Bfs(scene, q), f) == (if f(q[0]) then [q[0]] else []) + Filter(Bfs(scene, Next(scene, q)), f)
  {
    ForestShrinks(scene, q);
    var next := Next(scene, q);
    assert Bfs(scene, q) == [q[0]] + Bfs(scene, next);
    FilterConcat<ObjectRef>([q[0]], Bfs(scene, next), f);
  }

  /** The inner loop of the walk: the `count` children of `current` appended to the queue in order. */
  method EnqueueChildren(queue: seq<ObjectRef>, current: ObjectRef, count: nat) returns (q: seq<ObjectRef>)
    ensures q == queue + ChildRefs(current, count)
    ensures |q| == |queue| + count
    ensures forall i :: 0 <= i < count ==> q[|queue| + i] == current + [i]
  {
    q := queue;
    for i := 0 to count
      invariant q == queue + ChildRefs(current, i)
    {
      var child: ObjectRef := current + [i];
      q := q + [child];
    }
  }

  /** One dequeue of the walk keeps the invariant of BreadthFirstOrder. */
  lemma OrderedStep(scene: seq<GameObject>, q: seq<ObjectRef>, f: ObjectRef -> bool, ordered: seq<ObjectRef>, goal: seq<ObjectRef>)
    requires |q| > 0 && AllInScene(scene, q)
    requires ordered + Filter(Bfs(scene, q), f) == goal
    ensures AllInScene(scene, Next(scene, q))
    ensures |Forest(scene, Next(scene, q))| < |Forest(scene, q)|
    ensures (ordered + if f(q[0]) then [q[0]] else []) + Filter(Bfs(scene, Next(scene, q)), f) == goal
  {
    FilteredBfsStep(scene, q, f);
    ConcatAssoc(ordered, if f(q[0]) then [q[0]] else [], Filter(Bfs(scene, Next(scene, q)), f));
  }

  /**
   * The walk of GetOrderedGameObjects: a queue seeded with the target;
   * each dequeued object is kept when registered and its children are
   * enqueued in order.
   */
  method BreadthFirstOrder(scene: seq<GameObject>, a: ObjectRef, registered: set<ObjectRef>) returns (ordered: seq<ObjectRef>)
    requires InScene(scene, a)
    ensures ordered == OrderedObjects(scene, Some(a), registered)
    ensures AllInScene(scene, ordered)
  {
    ghost var present := InSet(registered);
    ghost var goal := Filter(Bfs(scene, [a]), present);
    ordered := [];
    var queue: seq<ObjectRef> := [a];
    while |queue| > 0
      invariant AllInScene(scene, queue)
      invariant ordered + Filter(Bfs(scene, queue), present) == goal
      decreases |Forest(scene, queue)|
    {
      ghost var previous := queue;
      OrderedStep(scene, queue, present, ordered, goal);
      var current: ObjectRef := queue[0];
      ghost var kept: seq<ObjectRef> := if present(current) then [current] else [];
      ghost var expected := ordered + kept;
      if current in registered {
        ordered := ordered + [current];
      }
      assert ordered == expected;
      queue := EnqueueChildren(queue[1..], current, |SceneAt(scene, current).children|);
      assert queue == Next(scene, previous);
    }
    BfsInScene(scene, [a]);
    FilterInScene(scene, Bfs(scene, [a]), present);
  }

  // ---------------------------------------------------------------------
  // Filters

  predicate NameMatches(info: ComponentInfo, filter: string)
  {
    ContainsIgnoreCase(Name(info), filter)
  }

  /**
   * FilterComponentsByName: all rows for an empty filter; otherwise the
   * rows whose name contains the filter ignoring case, or all rows when
   * `showAllComponentsOnMatch` is set and some row matches.
   */
  function FilterComponentsByName(components: seq<ComponentInfo>, componentFilter: string, showAllComponentsOnMatch: bool)
    : (r: seq<ComponentInfo>)
    ensures componentFilter == "" ==> r == components
    ensures componentFilter != "" ==>
      (|r| > 0 <==> exists i :: 0 <= i < |components| && NameMatches(components[i], componentFilter))
    ensures componentFilter != "" && showAllComponentsOnMatch && |r| > 0 ==> r == components
    ensures componentFilter != "" && !showAllComponentsOnMatch ==>
      forall i :: 0 <= i < |r| ==> r[i] in components && NameMatches(r[i], componentFilter)
    ensures componentFilter != "" && !showAllComponentsOnMatch ==>
      forall i :: 0 <= i < |components| && NameMatches(components[i], componentFilter) ==> components[i] in r
  {
    if componentFilter == "" then components
    else
      var matching := Filter(components, c => NameMatches(c, componentFilter));
      assert |matching| > 0 ==> matching[0] in components;
      if showAllComponentsOnMatch && |matching| > 0 then components else matching
  }

  /** IsGameObjectMatchingFilter: the name, or the displayed path, contains the filter ignoring case. */
  predicate ObjectMatches(scene: seq<GameObject>, go: ObjectRef, target: Option<ObjectRef>, gameObjectFilter: string, searchInPaths: bool)
    requires InScene(scene, go)
    requires target.Some? ==> InScene(scene, target.value)
  {
    gameObjectFilter == ""
    || if searchInPaths then ContainsIgnoreCase(ComponentPaths.CalculatedPath(scene, go, target), gameObjectFilter)
       else ContainsIgnoreCase(SceneAt(scene, go).name, gameObjectFilter)
  }

  /** The four filter settings of the window. */
  datatype Query = Query(gameObjectFilter: string, componentFilter: string, searchInPaths: bool, showAllComponentsOnMatch: bool)

  /** The rows GetFilteredItems shows for `go`. */
  function ShownRows(m: map<ObjectRef, seq<ComponentInfo>>, go: ObjectRef, query: Query): seq<ComponentInfo>
    requires go in m
  {
    FilterComponentsByName(m[go], query.componentFilter, query.showAllComponentsOnMatch)
  }

  /** GetFilteredItems keeps `go`: registered, matched by name or path, and with a row to show if rows are filtered. */
  predicate Shown(scene: seq<GameObject>, m: map<ObjectRef, seq<ComponentInfo>>, target: Option<ObjectRef>, query: Query, go: ObjectRef)
  {
    && InScene(scene, go) && (target.Some? ==> InScene(scene, target.value))
    && go in m
    && ObjectMatches(scene, go, target, query.gameObjectFilter, query.searchInPaths)
    && (query.componentFilter == "" || |ShownRows(m, go, query)| > 0)
  }

  /** The objects of `objs` that are shown, in order. */
  function ShownObjects(scene: seq<GameObject>, m: map<ObjectRef, seq<ComponentInfo>>, target: Option<ObjectRef>, query: Query, objs: seq<ObjectRef>)
    : seq<ObjectRef>
  {
    if |objs| == 0 then []
    else
      var last := objs[|objs| - 1];
      ShownObjects(scene, m, target, query, objs[..|objs| - 1])
      + if Shown(scene, m, target, query, last) then [last] else []
  }

  /** The shown rows of the shown objects of `objs`, object after object. */
  function ShownComponents(scene: seq<GameObject>, m: map<ObjectRef, seq<ComponentInfo>>, target: Option<ObjectRef>, query: Query, objs: seq<ObjectRef>)
    : seq<ComponentInfo>
  {
    if |objs| == 0 then []
    else
      var last := objs[|objs| - 1];
      ShownComponents(scene, m, target, query, objs[..|objs| - 1])
      + if Shown(scene, m, target, query, last) then ShownRows(m, last, query) else []
  }

  /** Extending the visited objects by one extends both lists by that object's contribution alone. */
  lemma ShownStep(scene: seq<GameObject>, m: map<ObjectRef, seq<ComponentInfo>>, target: Option<ObjectRef>, query: Query,
                  objs: seq<ObjectRef>, i: nat)
    requires i < |objs|
    ensures ShownObjects(scene, m, target, query, objs[..i + 1]) == ShownObjects(scene, m, target, query, objs[..i])
      + if Shown(scene, m, target, query, objs[i]) then [objs[i]] else []
    ensures ShownComponents(scene, m, target, query, objs[..i + 1]) == ShownComponents(scene, m, target, query, objs[..i])
      + if Shown(scene, m, target, query, objs[i]) then ShownRows(m, objs[i], query) else []
  {
    assert objs[..i + 1][..i] == objs[..i];
  }

  /** An object is listed exactly when it is among `objs` and shown. */
  lemma {:induction false} ShownObjectsMember(scene: seq<GameObject>, m: map<ObjectRef, seq<ComponentInfo>>, target: Option<ObjectRef>,
                                              query: Query, objs: seq<ObjectRef>, x: ObjectRef)
    ensures x in ShownObjects(scene, m, target, query, objs) <==>
      x in objs && InScene(scene, x) && Shown(scene, m, target, query, x)
  {
    if |objs| > 0 {
      var init := objs[..|objs| - 1];
      ShownObjectsMember(scene, m, target, query, init, x);
      assert objs == init + [objs[|objs| - 1]];
    }
  }

  /** Every row of an object belongs to that object. */
  predicate RowsOwned(m: map<ObjectRef, seq<ComponentInfo>>)
  {
    forall x | x in m :: forall i :: 0 <= i < |m[x]| ==> m[x][i].gameObject == x
  }

  /** The shown rows of an object are its own rows, and match the filter unless all rows are shown. */
  lemma ShownRowsSpec(m: map<ObjectRef, seq<ComponentInfo>>, go: ObjectRef, query: Query)
    requires go in m && RowsOwned(m)
    ensures forall k :: 0 <= k < |ShownRows(m, go, query)| ==>
      var c := ShownRows(m, go, query)[k];
      c.gameObject == go && c in m[go]
      && (query.componentFilter != "" && !query.showAllComponentsOnMatch ==> NameMatches(c, query.componentFilter))
  {
    var rows := m[go];
    var here := ShownRows(m, go, query);
    forall k | 0 <= k < |here|
      ensures here[k] in rows
    {
      if query.componentFilter == "" || (query.showAllComponentsOnMatch && |here| > 0) {
        assert here == rows;
      }
    }
  }

  /** What ShownComponentsSpec states about the rows `cs` listed for the objects `os`. */
  ghost predicate RowsOfListed(m: map<ObjectRef, seq<ComponentInfo>>, query: Query, os: seq<ObjectRef>, cs: seq<ComponentInfo>)
  {
    forall k :: 0 <= k < |cs| ==>
      cs[k].gameObject in os && cs[k].gameObject in m && cs[k] in m[cs[k].gameObject]
      && (query.componentFilter != "" && !query.showAllComponentsOnMatch ==> NameMatches(cs[k], query.componentFilter))
  }

  /** Appending one object's shown rows, and the object itself when shown, keeps RowsOfListed. */
  lemma RowsOfListedSnoc(m: map<ObjectRef, seq<ComponentInfo>>, query: Query, os: seq<ObjectRef>, cs: seq<ComponentInfo>,
                         go: ObjectRef, shown: bool)
    requires RowsOwned(m) && RowsOfListed(m, query, os, cs)
    requires shown ==> go in m
    ensures RowsOfListed(m, query, os + (if shown then [go] else []),
                         cs + (if shown then ShownRows(m, go, query) else []))
  {
    var os' := os + (if shown then [go] else []);
    var here: seq<ComponentInfo> := if shown then ShownRows(m, go, query) else [];
    if shown {
      ShownRowsSpec(m, go, query);
    }
    forall k | 0 <= k < |cs| + |here|
      ensures (cs + here)[k].gameObject in os'
    {
      if k >= |cs| {
        assert (cs + here)[k] == here[k - |cs|];
      } else {
        assert (cs + here)[k] == cs[k];
      }
    }
  }

  /**
   * Every listed row is a row of a listed object; with a component filter
   * and without `showAllComponentsOnMatch`, its name contains the filter.
   */
  lemma {:induction false} ShownComponentsSpec(scene: seq<GameObject>, m: map<ObjectRef, seq<ComponentInfo>>, target: Option<ObjectRef>,
                                               query: Query, objs: seq<ObjectRef>)
    requires RowsOwned(m)
    ensures forall k :: 0 <= k < |ShownComponents(scene, m, target, query, objs)| ==>
      var c := ShownComponents(scene, m, target, query, objs)[k];
      c.gameObject in ShownObjects(scene, m, target, query, objs) && c.gameObject in m && c in m[c.gameObject]
      && (query.componentFilter != "" && !query.showAllComponentsOnMatch ==> NameMatches(c, query.componentFilter))
  {
    if |objs| > 0 {
      var init := objs[..|objs| - 1];
      var last := objs[|objs| - 1];
      ShownComponentsSpec(scene, m, target, query, init);
      var shown := Shown(scene, m, target, query, last);
      RowsOfListedSnoc(m, query, ShownObjects(scene, m, target, query, init), ShownComponents(scene, m, target, query, init), last, shown);
    }
  }

  // ---------------------------------------------------------------------
  // Selection

  predicate Selected(state: map<ObjectRef, bool>, x: ObjectRef)
  {
    x in state && state[x]
  }

  /** The selected rows of the objects of `ks` that are not themselves selected, object after object. */
  function SelectedComponents(m: map<ObjectRef, seq<ComponentInfo>>, state: map<ObjectRef, bool>, ks: seq<ObjectRef>): seq<ComponentInfo>
    requires forall k :: 0 <= k < |ks| ==> ks[k] in m
  {
    if |ks| == 0 then []
    else
      var last := ks[|ks| - 1];
      SelectedComponents(m, state, ks[..|ks| - 1])
      + if Selected(state, last) then [] else Filter(m[last], (c: ComponentInfo) => c.isSelected)
  }

  /** Each reported row is selected, is a row of its object, and that object is not selected. */
  lemma {:induction false} SelectedComponentsSound(m: map<ObjectRef, seq<ComponentInfo>>, state: map<ObjectRef, bool>, ks: seq<ObjectRef>)
    requires forall k :: 0 <= k < |ks| ==> ks[k] in m
    requires RowsOwned(m)
    ensures forall k :: 0 <= k < |SelectedComponents(m, state, ks)| ==>
      var c := SelectedComponents(m, state, ks)[k];
      c.isSelected && c.gameObject in ks && c.gameObject in m && c in m[c.gameObject] && !Selected(state, c.gameObject)
  {
    if |ks| > 0 {
      var init := ks[..|ks| - 1];
      var last := ks[|ks| - 1];
      SelectedComponentsSound(m, state, init);
      var before := SelectedComponents(m, state, init);
      var here := if Selected(state, last) then [] else Filter(m[last], (c: ComponentInfo) => c.isSelected);
      assert forall k :: 0 <= k < |here| ==> here[k] in m[last] && here[k].isSelected;
      forall k | 0 <= k < |before| + |here|
        ensures var c := (before + here)[k];
          c.isSelected && c.gameObject in ks && c.gameObject in m && c in m[c.gameObject] && !Selected(state, c.gameObject)
      {
        if k >= |before| {
          var c := here[k - |before|];
          assert (before + here)[k] == c;
          var i :| 0 <= i < |m[last]| && m[last][i] == c;
        } else {
          assert (before + here)[k] == before[k];
          assert before[k].gameObject in init;
        }
      }
    }
  }

  /** Every selected row of an unselected object of `ks` is reported. */
  lemma {:induction false} SelectedComponentsComplete(m: map<ObjectRef, seq<ComponentInfo>>, state: map<ObjectRef, bool>, ks: seq<ObjectRef>,
                                                      x: ObjectRef, c: ComponentInfo)
    requires forall k :: 0 <= k < |ks| ==> ks[k] in m
    requires x in ks && !Selected(state, x) && c in m[x] && c.isSelected
    ensures c in SelectedComponents(m, state, ks)
  {
    var init := ks[..|ks| - 1];
    var last := ks[|ks| - 1];
    if x == last {
      FilterMember(m[last], (c: ComponentInfo) => c.isSelected, c);
    } else {
      assert ks == init + [last];
      SelectedComponentsComplete(m, state, init, x, c);
    }
  }

  // ---------------------------------------------------------------------
  // The manager

  class ComponentDataManager {
    var componentsByGameObject: map<ObjectRef, seq<ComponentInfo>>
    /** The keys of `componentsByGameObject` in the order the dictionary enumerates them. */
    var keys: seq<ObjectRef>
    var gameObjectSelectionState: map<ObjectRef, bool>
    var showEmptyObjects: bool

    ghost predicate Valid()
      reads this
    {
      Distinct(keys)
      && (forall x :: x in componentsByGameObject <==> x in keys)
      && RowsOwned(componentsByGameObject)
    }

    constructor()
      ensures Valid()
      ensures componentsByGameObject == map[] && keys == [] && gameObjectSelectionState == map[]
      ensures !showEmptyObjects
    {
      componentsByGameObject := map[];
      keys := [];
      gameObjectSelectionState := map[];
      showEmptyObjects := false;
    }

    /**
     * RefreshComponentsList: for a non-null target, forgets every row,
     * flag and cached path and registers, in pre-order, each object of the
     * target's subtree that has a listed component (or every object when
     * empty objects are shown), with its rows and an unselected flag.
     */
    method RefreshComponentsList(scene: seq<GameObject>, targetObject: Option<ObjectRef>, cache: ComponentPaths.PathCache)
      requires targetObject.Some? ==> InScene(scene, targetObject.value)
      modifies this, cache
      ensures targetObject.None? ==> unchanged(this) && unchanged(cache)
      ensures showEmptyObjects == old(showEmptyObjects)
      ensures targetObject.Some? ==>
        && keys == RegisteredObjects(scene, targetObject.value, showEmptyObjects)
        && Tables(scene, componentsByGameObject, keys, gameObjectSelectionState)
        && cache.pathCache == map[]
        && Valid()
    {
      if targetObject.None? {
        return;
      }
      var showEmpty := showEmptyObjects;
      componentsByGameObject := map[];
      keys := [];
      gameObjectSelectionState := map[];
      cache.ClearCache();
      var transforms := Subtree(scene, targetObject.value);
      SubtreeFacts(scene, targetObject.value);
      var m, ks, st := CollectComponents(scene, transforms, showEmpty);
      RegistryValid(scene, targetObject.value, showEmpty, m, ks, st);
      componentsByGameObject := m;
      keys := ks;
      gameObjectSelectionState := st;
      assert showEmptyObjects == showEmpty;
      assert componentsByGameObject == m && keys == ks && gameObjectSelectionState == st;
    }

    /** GetOrderedGameObjects: the registered objects met by a breadth-first walk from the target. */
    method GetOrderedGameObjects(scene: seq<GameObject>, targetObject: Option<ObjectRef>) returns (ordered: seq<ObjectRef>)
      requires targetObject.Some? ==> InScene(scene, targetObject.value)
      ensures ordered == OrderedObjects(scene, targetObject, componentsByGameObject.Keys)
      ensures AllInScene(scene, ordered)
    {
      ordered := [];
      if targetObject.None? {
        return;
      }
      ordered := BreadthFirstOrder(scene, targetObject.value, componentsByGameObject.Keys);
    }

    /** IsGameObjectMatchingFilter: an empty filter matches; otherwise the name, or the cached path, must contain it. */
    method IsGameObjectMatchingFilter(scene: seq<GameObject>, gameObject: ObjectRef, targetObject: Option<ObjectRef>,
                                      gameObjectFilter: string, searchInPaths: bool, cache: ComponentPaths.PathCache)
      returns (matched: bool)
      requires InScene(scene, gameObject)
      requires targetObject.Some? ==> InScene(scene, targetObject.value)
      modifies cache
      ensures gameObjectFilter == "" || !searchInPaths ==> cache.pathCache == old(cache.pathCache)
      ensures old(cache.Coherent(scene)) ==>
        cache.Coherent(scene) && (matched <==> ObjectMatches(scene, gameObject, targetObject, gameObjectFilter, searchInPaths))
    {
      if gameObjectFilter == "" {
        return true;
      }
      if searchInPaths {
        var path := cache.GetGameObjectPath(scene, Some(gameObject), targetObject);
        matched := ContainsIgnoreCase(path, gameObjectFilter);
      } else {
        matched := ContainsIgnoreCase(SceneAt(scene, gameObject).name, gameObjectFilter);
      }
    }

    /**
     * GetFilteredItems: the objects of the breadth-first order that pass
     * the name or path filter and, when a component filter is set, have a
     * matching row, together with their shown rows, object after object.
     */
    method GetFilteredItems(scene: seq<GameObject>, targetObject: Option<ObjectRef>, gameObjectFilter: string, componentFilter: string,
                            searchInPaths: bool, showAllComponentsOnMatch: bool, cache: ComponentPaths.PathCache)
      returns (gameObjects: seq<ObjectRef>, components: seq<ComponentInfo>)
      requires targetObject.Some? ==> InScene(scene, targetObject.value)
      modifies cache
      ensures old(cache.Coherent(scene)) ==> cache.Coherent(scene)
      ensures old(cache.Coherent(scene)) ==>
        var query := Query(gameObjectFilter, componentFilter, searchInPaths, showAllComponentsOnMatch);
        var ordered := OrderedObjects(scene, targetObject, componentsByGameObject.Keys);
        AllInScene(scene, ordered)
        && gameObjects == ShownObjects(scene, componentsByGameObject, targetObject, query, ordered)
        && components == ShownComponents(scene, componentsByGameObject, targetObject, query, ordered)
    {
      var query := Query(gameObjectFilter, componentFilter, searchInPaths, showAllComponentsOnMatch);
      var ordered := GetOrderedGameObjects(scene, targetObject);
      var m := componentsByGameObject;
      gameObjects := [];
      components := [];
      ghost var coherent := cache.Coherent(scene);
      for i := 0 to |ordered|
        invariant coherent ==> cache.Coherent(scene)
        invariant coherent ==>
          gameObjects == ShownObjects(scene, m, targetObject, query, ordered[..i])
          && components == ShownComponents(scene, m, targetObject, query, ordered[..i])
      {
        var go := ordered[i];
        var show, rows := FilterObject(scene, go, targetObject, query, cache);
        ShownStep(scene, m, targetObject, query, ordered, i);
        ghost var expectedObjects := gameObjects + if show then [go] else [];
        ghost var expectedComponents := components + if show then rows else [];
        if show {
          gameObjects := gameObjects + [go];
          components := components + rows;
        }
        assert gameObjects == expectedObjects && components == expectedComponents;
      }
      assert ordered[..|ordered|] == ordered;
    }

    /**
     * One iteration of GetFilteredItems: whether `go` is shown, and the
     * rows shown with it.
     */
    method FilterObject(scene: seq<GameObject>, go: ObjectRef, targetObject: Option<ObjectRef>, query: Query,
                        cache: ComponentPaths.PathCache)
      returns (show: bool, rows: seq<ComponentInfo>)
      requires InScene(scene, go)
      requires targetObject.Some? ==> InScene(scene, targetObject.value)
      modifies cache
      ensures old(cache.Coherent(scene)) ==> cache.Coherent(scene)
      ensures old(cache.Coherent(scene)) ==> (show <==> Shown(scene, componentsByGameObject, targetObject, query, go))
      ensures show ==> go in componentsByGameObject
      ensures show ==> rows == ShownRows(componentsByGameObject, go, query)
    {
      show := false;
      rows := [];
      if go in componentsByGameObject {
        var gameObjectMatched := IsGameObjectMatchingFilter(scene, go, targetObject, query.gameObjectFilter, query.searchInPaths, cache);
        if gameObjectMatched {
          rows := FilterComponentsByName(componentsByGameObject[go], query.componentFilter, query.showAllComponentsOnMatch);
          show := query.componentFilter == "" || |rows| > 0;
        }
      }
    }

    /**
     * GetSelectedItems: the selected objects, in key order, and the
     * selected rows of every object that is not itself selected.
     */
    function GetSelectedItems(): (r: (seq<ObjectRef>, seq<ComponentInfo>))
      reads this
      requires Valid()
      ensures forall x :: x in r.0 <==> x in keys && Selected(gameObjectSelectionState, x)
      ensures forall k :: 0 <= k < |r.1| ==>
        r.1[k].isSelected && r.1[k].gameObject in componentsByGameObject
        && r.1[k] in componentsByGameObject[r.1[k].gameObject] && !Selected(gameObjectSelectionState, r.1[k].gameObject)
      ensures forall x, c ::
        (x in componentsByGameObject && !Selected(gameObjectSelectionState, x)
         && c in componentsByGameObject[x] && c.isSelected) ==> c in r.1
    {
      var state := gameObjectSelectionState;
      SelectedItemsSpec(componentsByGameObject, state, keys);
      (Filter(keys, x => Selected(state, x)), SelectedComponents(componentsByGameObject, state, keys))
    }

    /** The header or row toggle of an object: sets its selection flag. */
    method SetGameObjectSelected(gameObject: ObjectRef, value: bool)
      modifies this
      ensures gameObjectSelectionState == old(gameObjectSelectionState)[gameObject := value]
      ensures componentsByGameObject == old(componentsByGameObject) && keys == old(keys)
      ensures showEmptyObjects == old(showEmptyObjects)
    {
      gameObjectSelectionState := gameObjectSelectionState[gameObject := value];
    }

    /** The toggle of a row: sets the selection flag of row `index` of `gameObject`. */
    method SetComponentSelected(gameObject: ObjectRef, index: nat, value: bool)
      requires gameObject in componentsByGameObject && index < |componentsByGameObject[gameObject]|
      modifies this
      ensures componentsByGameObject == old(componentsByGameObject)[gameObject :=
        old(componentsByGameObject[gameObject])[index := old(componentsByGameObject[gameObject][index]).(isSelected := value)]]
      ensures keys == old(keys) && gameObjectSelectionState == old(gameObjectSelectionState)
      ensures showEmptyObjects == old(showEmptyObjects)
      ensures old(Valid()) ==> Valid()
    {
      var rows := componentsByGameObject[gameObject];
      componentsByGameObject := componentsByGameObject[gameObject := rows[index := rows[index].(isSelected := value)]];
    }
  }

  /** The two halves of GetSelectedItems, for every key sequence of a valid manager. */
  lemma SelectedItemsSpec(m: map<ObjectRef, seq<ComponentInfo>>, state: map<ObjectRef, bool>, ks: seq<ObjectRef>)
    requires forall x :: x in m <==> x in ks
    requires RowsOwned(m)
    ensures forall x :: x in Filter(ks, x => Selected(state, x)) <==> x in ks && Selected(state, x)
    ensures forall k :: 0 <= k < |SelectedComponents(m, state, ks)| ==>
      var c := SelectedComponents(m, state, ks)[k];
      c.isSelected && c.gameObject in m && c in m[c.gameObject] && !Selected(state, c.gameObject)
    ensures forall x, c :: x in m && !Selected(state, x) && c in m[x] && c.isSelected ==> c in SelectedComponents(m, state, ks)
  {
    forall x
      ensures x in Filter(ks, x => Selected(state, x)) <==> x in ks && Selected(state, x)
    {
      FilterMember(ks, x => Selected(state, x), x);
    }
    SelectedComponentsSound(m, state, ks);
    forall x, c | x in m && !Selected(state, x) && c in m[x] && c.isSelected
      ensures c in SelectedComponents(m, state, ks)
    {
      SelectedComponentsComplete(m, state, ks, x, c);
    }
  }
}
