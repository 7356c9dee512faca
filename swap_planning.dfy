/**
 * Material swap planning, shared by the two MaterialSwapGenerator
 * classes: slot-wise pairing of a matched object's materials with the
 * copied ones, the per-source-material conflict table `MaterialSwapInfo`,
 * and the records `ProcessMaterialSwapGroups` emits from it.
 *
 * Matching is pure, so a group reaches this module as `Entry` values:
 * the matched object (its position and its renderer's material slots),
 * or nothing when there was no match or no renderer, together with the
 * copied material slots. `Dictionary` and `HashSet` are enumerated in
 * insertion order (nothing is ever removed from them here).
 */
module SwapPlanning {
  import opened Collections
  import opened Scene
  import opened Generation

  datatype Matched = Matched(target: Pos, current: seq<Option<MaterialId>>)

  datatype Entry = Entry(matched: Option<Matched>, source: seq<Option<MaterialId>>)

  function Min(a: nat, b: nat): nat
  {
    if a < b then a else b
  }

  // ---------------------------------------------------------------------
  // Slot-wise pairing

  /** The pairs of the first `n` slots where both the current and the copied material are non-null. */
  function SlotSwaps(current: seq<Option<MaterialId>>, source: seq<Option<MaterialId>>, n: nat): seq<Swap>
    requires n <= |current| && n <= |source|
  {
    if n == 0 then []
    else
      SlotSwaps(current, source, n - 1)
      + (if current[n - 1].Some? && source[n - 1].Some? then [Swap(current[n - 1].value, source[n - 1].value)] else [])
  }

  /** The pairs of a matched object: slots below the smaller of the two slot counts. */
  function PairsOf(current: seq<Option<MaterialId>>, source: seq<Option<MaterialId>>): seq<Swap>
  {
    SlotSwaps(current, source, Min(|current|, |source|))
  }

  /** A pair is formed exactly for a slot below the bound where both materials are non-null. */
  lemma {:induction false} SlotSwapsMember(current: seq<Option<MaterialId>>, source: seq<Option<MaterialId>>, n: nat, w: Swap)
    requires n <= |current| && n <= |source|
    ensures w in SlotSwaps(current, source, n) <==>
      exists i :: 0 <= i < n && current[i] == Some(w.from) && source[i] == Some(w.to)
  {
    if n > 0 {
      SlotSwapsMember(current, source, n - 1, w);
    }
  }

  /** One pair per slot below the bound with both materials non-null: the count of such slots. */
  function BothSet(current: seq<Option<MaterialId>>, source: seq<Option<MaterialId>>, n: nat): nat
    requires n <= |current| && n <= |source|
  {
    if n == 0 then 0
    else BothSet(current, source, n - 1) + (if current[n - 1].Some? && source[n - 1].Some? then 1 else 0)
  }

  lemma {:induction false} SlotSwapsCount(current: seq<Option<MaterialId>>, source: seq<Option<MaterialId>>, n: nat)
    requires n <= |current| && n <= |source|
    ensures |SlotSwaps(current, source, n)| == BothSet(current, source, n)
  {
    if n > 0 {
      SlotSwapsCount(current, source, n - 1);
    }
  }

  // ---------------------------------------------------------------------
  // The mapping stream

  /** One `AddMapping` call: source material `from` maps to `to` on object `obj`. */
  datatype Mapping = Mapping(from: MaterialId, to: MaterialId, obj: Pos)

  function Tagged(swaps: seq<Swap>, obj: Pos): (r: seq<Mapping>)
    ensures |r| == |swaps|
    ensures forall i :: 0 <= i < |swaps| ==> r[i] == Mapping(swaps[i].from, swaps[i].to, obj)
  {
    if |swaps| == 0 then [] else Tagged(swaps[..|swaps| - 1], obj) + [Mapping(swaps[|swaps| - 1].from, swaps[|swaps| - 1].to, obj)]
  }

  /** The pairs an entry contributes: none without a matched object with a renderer. */
  function EntrySwaps(e: Entry): seq<Swap>
  {
    if e.matched.None? then [] else PairsOf(e.matched.value.current, e.source)
  }

  function EntryMappings(e: Entry): seq<Mapping>
  {
    if e.matched.None? then [] else Tagged(EntrySwaps(e), e.matched.value.target)
  }

  /** The `AddMapping` calls a group makes, entry by entry, slot by slot. */
  function GroupMappings(entries: seq<Entry>): seq<Mapping>
  {
    if |entries| == 0 then [] else GroupMappings(entries[..|entries| - 1]) + EntryMappings(entries[|entries| - 1])
  }

  /** The number of pairs a group forms, entry by entry. */
  function PairCount(entries: seq<Entry>): nat
  {
    if |entries| == 0 then 0 else PairCount(entries[..|entries| - 1]) + |EntrySwaps(entries[|entries| - 1])|
  }

  lemma {:induction false} GroupMappingsCount(entries: seq<Entry>)
    ensures |GroupMappings(entries)| == PairCount(entries)
  {
    if |entries| > 0 {
      GroupMappingsCount(entries[..|entries| - 1]);
    }
  }

  // ---------------------------------------------------------------------
  // The conflict table

  /**
   * The contents of one `MaterialSwapInfo`: its target materials in
   * insertion order, and for each the objects that asked for it.
   */
  datatype SwapTable = SwapTable(targets: seq<MaterialId>, objects: map<MaterialId, seq<Pos>>)

  /** `AddMapping`: a new target gets an empty object set first; the object is added to its set. */
  function AddToTable(tb: SwapTable, to: MaterialId, obj: Pos): SwapTable
  {
    if to in tb.objects then
      (if obj in tb.objects[to] then tb else SwapTable(tb.targets, tb.objects[to := tb.objects[to] + [obj]]))
    else
      SwapTable(tb.targets + [to], tb.objects[to := [obj]])
  }

  /** `GetObjectsForTarget`: the target's objects, or an empty set. */
  function ObjectsOf(tb: SwapTable, t: MaterialId): seq<Pos>
  {
    if t in tb.objects then tb.objects[t] else []
  }

  /** The keys are the targets, each once, and each object set holds an object once. */
  ghost predicate WellFormed(tb: SwapTable)
  {
    Distinct(tb.targets)
    && (forall t :: t in tb.objects <==> t in tb.targets)
    && (forall t :: t in tb.objects ==> Distinct(tb.objects[t]) && |tb.objects[t]| > 0)
  }

  /** The table for source material `f` after the mappings `ms`. */
  function TableFor(ms: seq<Mapping>, f: MaterialId): SwapTable
  {
    if |ms| == 0 then SwapTable([], map[])
    else
      var prev := TableFor(ms[..|ms| - 1], f);
      var m := ms[|ms| - 1];
      if m.from == f then AddToTable(prev, m.to, m.obj) else prev
  }

  lemma {:induction false} TableForWellFormed(ms: seq<Mapping>, f: MaterialId)
    ensures WellFormed(TableFor(ms, f))
  {
    if |ms| > 0 {
      TableForWellFormed(ms[..|ms| - 1], f);
    }
  }

  /** A target is in `f`'s table exactly when some mapping sends `f` to it. */
  lemma {:induction false} TableTargets(ms: seq<Mapping>, f: MaterialId, t: MaterialId)
    ensures t in TableFor(ms, f).targets <==> exists i :: 0 <= i < |ms| && ms[i].from == f && ms[i].to == t
  {
    if |ms| > 0 {
      var init := ms[..|ms| - 1];
      TableTargets(init, f, t);
      TableForWellFormed(init, f);
      if exists i :: 0 <= i < |init| && init[i].from == f && init[i].to == t {
        var i :| 0 <= i < |init| && init[i].from == f && init[i].to == t;
        assert ms[i] == init[i];
      }
      if i :| 0 <= i < |ms| && ms[i].from == f && ms[i].to == t {
        if i < |init| {
          assert init[i] == ms[i];
        }
      }
    }
  }

  /** An object is in a target's set exactly when some mapping sends `f` to that target on it. */
  lemma {:induction false} TableObjects(ms: seq<Mapping>, f: MaterialId, t: MaterialId, o: Pos)
    ensures o in ObjectsOf(TableFor(ms, f), t) <==> Mapping(f, t, o) in ms
  {
    if |ms| > 0 {
      var init := ms[..|ms| - 1];
      TableObjects(init, f, t, o);
      assert ms == init + [ms[|ms| - 1]];
    }
  }

  /** `HasConflicts` holds exactly when `f` is sent to two different targets. */
  lemma TableConflicts(ms: seq<Mapping>, f: MaterialId)
    ensures |TableFor(ms, f).targets| > 1 <==>
      exists i, j :: 0 <= i < |ms| && 0 <= j < |ms| && ms[i].from == f && ms[j].from == f && ms[i].to != ms[j].to
  {
    var tb := TableFor(ms, f);
    TableForWellFormed(ms, f);
    if |tb.targets| > 1 {
      TableTargets(ms, f, tb.targets[0]);
      TableTargets(ms, f, tb.targets[1]);
      var i :| 0 <= i < |ms| && ms[i].from == f && ms[i].to == tb.targets[0];
      var j :| 0 <= j < |ms| && ms[j].from == f && ms[j].to == tb.targets[1];
      assert ms[i].to != ms[j].to;
    }
    if i, j :| 0 <= i < |ms| && 0 <= j < |ms| && ms[i].from == f && ms[j].from == f && ms[i].to != ms[j].to {
      TableTargets(ms, f, ms[i].to);
      TableTargets(ms, f, ms[j].to);
    }
  }

  // ---------------------------------------------------------------------
  // The most common target

  /** The first index holding the largest count: a stable descending sort's first element. */
  function FirstMaxIndex(counts: seq<nat>): (k: nat)
    requires |counts| > 0
    ensures k < |counts|
    ensures forall j :: 0 <= j < |counts| ==> counts[j] <= counts[k]
    ensures forall j :: 0 <= j < k ==> counts[j] < counts[k]
  {
    if |counts| == 1 then 0
    else
      var k := FirstMaxIndex(counts[..|counts| - 1]);
      assert forall j :: 0 <= j < |counts| - 1 ==> counts[..|counts| - 1][j] == counts[j];
      if counts[|counts| - 1] > counts[k] then |counts| - 1 else k
  }

  function Counts(tb: SwapTable): (r: seq<nat>)
    ensures |r| == |tb.targets|
    ensures forall i :: 0 <= i < |r| ==> r[i] == |ObjectsOf(tb, tb.targets[i])|
  {
    seq(|tb.targets|, i requires 0 <= i < |tb.targets| => |ObjectsOf(tb, tb.targets[i])|)
  }

  /** `GetMostCommonTarget`: the first target with the most distinct objects. */
  function MostCommonTarget(tb: SwapTable): (t: MaterialId)
    requires |tb.targets| > 0
    ensures t in tb.targets
    ensures forall u :: u in tb.targets ==> |ObjectsOf(tb, u)| <= |ObjectsOf(tb, t)|
    ensures forall j :: 0 <= j < |tb.targets| && tb.targets[j] != t ==> |ObjectsOf(tb, tb.targets[j])| <= |ObjectsOf(tb, t)|
  {
    var k := FirstMaxIndex(Counts(tb));
    assert forall j :: 0 <= j < |tb.targets| ==> Counts(tb)[j] <= Counts(tb)[k];
    tb.targets[k]
  }

  /**
   * The target a source material keeps in the main component: its only
   * target, or on conflict the most common one.
   */
  function MainTarget(tb: SwapTable): MaterialId
    requires |tb.targets| > 0
  {
    if !(|tb.targets| > 1) then tb.targets[0] else MostCommonTarget(tb)
  }

  /** Both branches pick the most common target: a sole target is trivially the most common. */
  lemma MainTargetIsMostCommon(tb: SwapTable)
    requires |tb.targets| > 0
    ensures MainTarget(tb) == MostCommonTarget(tb)
  {
    if |tb.targets| == 1 {
      assert tb.targets[0] in tb.targets;
    }
  }

  /** MaterialSwapInfo: the target table of one source material, updated in place. */
  class MaterialSwapInfo {
    /** The keys of the target dictionary, in insertion order. */
    var targetMaterials: seq<MaterialId>
    /** Each target's object set, in insertion order. */
    var targetMappings: map<MaterialId, seq<Pos>>

    function Table(): SwapTable
      reads this
    {
      SwapTable(targetMaterials, targetMappings)
    }

    constructor()
      ensures Table() == SwapTable([], map[])
    {
      targetMaterials := [];
      targetMappings := map[];
    }

    method AddMapping(targetMaterial: MaterialId, sourceObject: Pos)
      modifies this
      ensures Table() == AddToTable(old(Table()), targetMaterial, sourceObject)
    {
      if targetMaterial !in targetMappings {
        targetMaterials := targetMaterials + [targetMaterial];
        targetMappings := targetMappings[targetMaterial := [sourceObject]];
      } else if sourceObject !in targetMappings[targetMaterial] {
        targetMappings := targetMappings[targetMaterial := targetMappings[targetMaterial] + [sourceObject]];
      }
    }

    predicate HasConflicts()
      reads this
    {
      |targetMaterials| > 1
    }

    function GetObjectsForTarget(targetMaterial: MaterialId): (objs: seq<Pos>)
      reads this
      ensures objs == ObjectsOf(Table(), targetMaterial)
    {
      if targetMaterial in targetMappings then targetMappings[targetMaterial] else []
    }

    function GetMostCommonTarget(): (t: MaterialId)
      reads this
      requires |targetMaterials| > 0
      ensures t == MostCommonTarget(Table())
    {
      targetMaterials[FirstMaxIndex(Counts(Table()))]
    }
  }

  // ---------------------------------------------------------------------
  // The emitted plan

  /** The source materials of `ms`, each once, in first-appearance order (the dictionary's keys). */
  function FromOrder(ms: seq<Mapping>): seq<MaterialId>
  {
    if |ms| == 0 then []
    else
      var prev := FromOrder(ms[..|ms| - 1]);
      var f := ms[|ms| - 1].from;
      if f in prev then prev else prev + [f]
  }

  /** Each source material appears once, exactly when it is mapped, and then has a target. */
  lemma {:induction false} FromOrderMember(ms: seq<Mapping>)
    ensures Distinct(FromOrder(ms))
    ensures forall f :: f in FromOrder(ms) <==> exists i :: 0 <= i < |ms| && ms[i].from == f
    ensures forall f :: f in FromOrder(ms) ==> |TableFor(ms, f).targets| > 0
  {
    if |ms| > 0 {
      var init := ms[..|ms| - 1];
      FromOrderMember(init);
      forall f
        ensures f in FromOrder(ms) <==> exists i :: 0 <= i < |ms| && ms[i].from == f
      {
        if exists i :: 0 <= i < |init| && init[i].from == f {
          var i :| 0 <= i < |init| && init[i].from == f;
          assert ms[i] == init[i];
        }
        if i :| 0 <= i < |ms| && ms[i].from == f {
          if i < |init| {
            assert init[i] == ms[i];
          }
        }
      }
    }
    forall f | f in FromOrder(ms)
      ensures |TableFor(ms, f).targets| > 0
    {
      var i :| 0 <= i < |ms| && ms[i].from == f;
      TableTargets(ms, f, ms[i].to);
    }
  }

  /** The component records `CreateConflictResolutionComponent` adds: one per object, each with the single pair. */
  function ObjectRecords(objs: seq<Pos>, w: Swap): (r: seq<Emitted>)
    ensures |r| == |objs|
    ensures forall i :: 0 <= i < |objs| ==> r[i] == AddMaterialSwapToObject(objs[i], [w])
  {
    if |objs| == 0 then [] else ObjectRecords(objs[..|objs| - 1], w) + [AddMaterialSwapToObject(objs[|objs| - 1], [w])]
  }

  /** The conflict components for the targets `ts` of source material `f`, skipping the main target. */
  function TargetRecords(tb: SwapTable, f: MaterialId, main: MaterialId, ts: seq<MaterialId>): seq<Emitted>
  {
    if |ts| == 0 then []
    else
      var t := ts[|ts| - 1];
      TargetRecords(tb, f, main, ts[..|ts| - 1]) + (if t != main then ObjectRecords(ObjectsOf(tb, t), Swap(f, t)) else [])
  }

  /** The conflict components of one source material: none unless it has two targets or more. */
  function FromRecords(tb: SwapTable, f: MaterialId): seq<Emitted>
  {
    if |tb.targets| > 1 then TargetRecords(tb, f, MostCommonTarget(tb), tb.targets) else []
  }

  /** The main pairs of the source materials `fs`. */
  function MainSwaps(ms: seq<Mapping>, fs: seq<MaterialId>): (r: seq<Swap>)
    requires forall f :: f in fs ==> |TableFor(ms, f).targets| > 0
    ensures |r| == |fs|
    ensures forall i :: 0 <= i < |fs| ==> r[i] == Swap(fs[i], MainTarget(TableFor(ms, fs[i])))
  {
    if |fs| == 0 then []
    else MainSwaps(ms, fs[..|fs| - 1]) + [Swap(fs[|fs| - 1], MainTarget(TableFor(ms, fs[|fs| - 1])))]
  }

  function ConflictRecords(ms: seq<Mapping>, fs: seq<MaterialId>): seq<Emitted>
  {
    if |fs| == 0 then []
    else ConflictRecords(ms, fs[..|fs| - 1]) + FromRecords(TableFor(ms, fs[|fs| - 1]), fs[|fs| - 1])
  }

  /** The main component's pairs: one per source material, in dictionary order. */
  function MainOf(ms: seq<Mapping>): seq<Swap>
  {
    FromOrderMember(ms);
    MainSwaps(ms, FromOrder(ms))
  }

  /**
   * What `ProcessMaterialSwapGroups` emits for the mappings `ms`: the
   * conflict components as it meets them, then the variation's own
   * component with the main pairs, when there is any.
   */
  function PlanRecords(ms: seq<Mapping>): seq<Emitted>
  {
    ConflictRecords(ms, FromOrder(ms)) + (if |MainOf(ms)| > 0 then [SetupMaterialSwap(MainOf(ms))] else [])
  }

  // ---------------------------------------------------------------------
  // What the plan promises

  lemma {:induction false} TableForUnmapped(ms: seq<Mapping>, f: MaterialId)
    requires f !in FromOrder(ms)
    ensures TableFor(ms, f) == SwapTable([], map[])
  {
    if |ms| > 0 {
      TableForUnmapped(ms[..|ms| - 1], f);
    }
  }

  /**
   * The main component holds one pair per source material that is mapped
   * at all, in the dictionary's order, and pairs it with its most common
   * target (its only target when it has one).
   */
  lemma MainOnePerSource(ms: seq<Mapping>)
    ensures Distinct(FromOrder(ms))
    ensures forall f :: f in FromOrder(ms) <==> exists j :: 0 <= j < |ms| && ms[j].from == f
    ensures forall f :: f in FromOrder(ms) ==> |TableFor(ms, f).targets| > 0
    ensures |MainOf(ms)| == |FromOrder(ms)|
    ensures forall i :: 0 <= i < |MainOf(ms)| ==>
      MainOf(ms)[i] == Swap(FromOrder(ms)[i], MostCommonTarget(TableFor(ms, FromOrder(ms)[i])))
  {
    FromOrderMember(ms);
    var fs := FromOrder(ms);
    forall i | 0 <= i < |fs|
      ensures MainOf(ms)[i] == Swap(fs[i], MostCommonTarget(TableFor(ms, fs[i])))
    {
      assert fs[i] in fs;
      MainTargetIsMostCommon(TableFor(ms, fs[i]));
    }
  }

  /** A pair of a mapped source material is in the main component exactly when its target is the main target. */
  lemma MainMember(ms: seq<Mapping>, f: MaterialId, t: MaterialId)
    requires f in FromOrder(ms)
    ensures |TableFor(ms, f).targets| > 0
    ensures Swap(f, t) in MainOf(ms) <==> t == MainTarget(TableFor(ms, f))
  {
    FromOrderMember(ms);
    var fs := FromOrder(ms);
    var k :| 0 <= k < |fs| && fs[k] == f;
    assert MainOf(ms)[k] == Swap(f, MainTarget(TableFor(ms, f)));
    if Swap(f, t) in MainOf(ms) {
      var i :| 0 <= i < |MainOf(ms)| && MainOf(ms)[i] == Swap(f, t);
      assert fs[i] == f;
    }
  }

  /** A component added to one object, holding a single pair. */
  predicate IsObjectSwap(r: Emitted)
  {
    r.AddMaterialSwapToObject? && |r.swaps| == 1
  }

  /** The conflict components for targets `ts`: a single pair from `f` to a listed target other than `main`, on an object of that target. */
  lemma {:induction false} TargetRecordsMember(tb: SwapTable, f: MaterialId, main: MaterialId, ts: seq<MaterialId>, r: Emitted)
    ensures r in TargetRecords(tb, f, main, ts) <==>
      IsObjectSwap(r) && r.swaps[0].from == f && r.swaps[0].to in ts && r.swaps[0].to != main && r.target in ObjectsOf(tb, r.swaps[0].to)
  {
    if |ts| > 0 {
      var init := ts[..|ts| - 1];
      var t := ts[|ts| - 1];
      assert ts == init + [t];
      TargetRecordsMember(tb, f, main, init, r);
      var extra := if t != main then ObjectRecords(ObjectsOf(tb, t), Swap(f, t)) else [];
      assert TargetRecords(tb, f, main, ts) == TargetRecords(tb, f, main, init) + extra;
      if IsObjectSwap(r) && r.swaps[0] == Swap(f, t) && t != main && r.target in ObjectsOf(tb, t) {
        var i :| 0 <= i < |ObjectsOf(tb, t)| && ObjectsOf(tb, t)[i] == r.target;
        assert extra[i] == r;
      }
    }
  }

  /** The conflict components of `f`: a single pair of a mapping of `f` whose target is not the main one, on that mapping's object. */
  lemma FromRecordsMember(ms: seq<Mapping>, f: MaterialId, r: Emitted)
    requires |TableFor(ms, f).targets| > 0
    ensures r in FromRecords(TableFor(ms, f), f) <==>
      IsObjectSwap(r) && r.swaps[0].from == f && Mapping(f, r.swaps[0].to, r.target) in ms
      && r.swaps[0].to != MainTarget(TableFor(ms, f))
  {
    var tb := TableFor(ms, f);
    TableForWellFormed(ms, f);
    if IsObjectSwap(r) {
      var t := r.swaps[0].to;
      TableObjects(ms, f, t, r.target);
      if r.target in ObjectsOf(tb, t) {
        assert t in tb.targets;
      }
      if |tb.targets| > 1 {
        TargetRecordsMember(tb, f, MostCommonTarget(tb), tb.targets, r);
      } else if Mapping(f, t, r.target) in ms {
        assert tb.targets[0] == t;
      }
    } else if |tb.targets| > 1 {
      TargetRecordsMember(tb, f, MostCommonTarget(tb), tb.targets, r);
    }
  }

  /** The conflict components of the source materials `fs`: those of each material in turn. */
  lemma {:induction false} ConflictRecordsMember(ms: seq<Mapping>, fs: seq<MaterialId>, r: Emitted)
    requires forall f :: f in fs ==> |TableFor(ms, f).targets| > 0
    ensures r in ConflictRecords(ms, fs) <==>
      IsObjectSwap(r) && r.swaps[0].from in fs && Mapping(r.swaps[0].from, r.swaps[0].to, r.target) in ms
      && r.swaps[0].to != MainTarget(TableFor(ms, r.swaps[0].from))
  {
    if |fs| > 0 {
      var init := fs[..|fs| - 1];
      var f := fs[|fs| - 1];
      assert fs == init + [f];
      ConflictRecordsMember(ms, init, r);
      FromRecordsMember(ms, f, r);
    }
  }

  /**
   * The conflict components are exactly one per mapping whose pair did
   * not make it into the main component: that object gets a component
   * of its own with that single pair.
   */
  lemma PlanConflicts(ms: seq<Mapping>, r: Emitted)
    ensures r in ConflictRecords(ms, FromOrder(ms)) <==>
      IsObjectSwap(r) && Mapping(r.swaps[0].from, r.swaps[0].to, r.target) in ms && r.swaps[0] !in MainOf(ms)
  {
    FromOrderMember(ms);
    var fs := FromOrder(ms);
    ConflictRecordsMember(ms, fs, r);
    if IsObjectSwap(r) && Mapping(r.swaps[0].from, r.swaps[0].to, r.target) in ms {
      var m := Mapping(r.swaps[0].from, r.swaps[0].to, r.target);
      var j :| 0 <= j < |ms| && ms[j] == m;
      assert m.from in fs;
      MainMember(ms, m.from, m.to);
    }
  }

  /** Every mapping is honoured: by the main component, or by a component on its own object. */
  lemma PlanCovers(ms: seq<Mapping>, m: Mapping)
    requires m in ms
    ensures Swap(m.from, m.to) in MainOf(ms) || AddMaterialSwapToObject(m.obj, [Swap(m.from, m.to)]) in PlanRecords(ms)
  {
    var r := AddMaterialSwapToObject(m.obj, [Swap(m.from, m.to)]);
    PlanConflicts(ms, r);
    assert IsObjectSwap(r) && r.swaps[0] == Swap(m.from, m.to) && Mapping(m.from, m.to, m.obj) == m;
    if Swap(m.from, m.to) !in MainOf(ms) {
      assert r in ConflictRecords(ms, FromOrder(ms));
    }
  }

  // ---------------------------------------------------------------------
  // The generator steps

  /** CreateConflictResolutionComponent: one component per affected object, each with the single pair. */
  method CreateConflictResolutionComponent(fromMaterial: MaterialId, toMaterial: MaterialId, targetObjects: seq<Pos>)
    returns (records: seq<Emitted>)
    ensures records == ObjectRecords(targetObjects, Swap(fromMaterial, toMaterial))
    ensures forall r :: r in records ==> r.AddMaterialSwapToObject? && r.swaps == [Swap(fromMaterial, toMaterial)]
  {
    var swaps := [Swap(fromMaterial, toMaterial)];
    records := [];
    for i := 0 to |targetObjects|
      invariant records == ObjectRecords(targetObjects[..i], Swap(fromMaterial, toMaterial))
    {
      assert targetObjects[..i + 1][..i] == targetObjects[..i];
      records := records + [AddMaterialSwapToObject(targetObjects[i], swaps)];
    }
    assert targetObjects[..|targetObjects|] == targetObjects;
  }

  /** The conflict branch of ProcessMaterialSwapGroups: components for every target but the main one. */
  method ConflictComponents(swapInfo: MaterialSwapInfo, fromMaterial: MaterialId, mostCommonTarget: MaterialId)
    returns (records: seq<Emitted>)
    ensures records == TargetRecords(swapInfo.Table(), fromMaterial, mostCommonTarget, swapInfo.targetMaterials)
  {
    ghost var tb := swapInfo.Table();
    var targets := swapInfo.targetMaterials;
    records := [];
    for j := 0 to |targets|
      invariant records == TargetRecords(tb, fromMaterial, mostCommonTarget, targets[..j])
    {
      assert targets[..j + 1][..j] == targets[..j];
      if targets[j] != mostCommonTarget {
        var affectedObjects := swapInfo.GetObjectsForTarget(targets[j]);
        var extra := CreateConflictResolutionComponent(fromMaterial, targets[j], affectedObjects);
        records := records + extra;
      }
    }
    assert targets[..|targets|] == targets;
  }

  /** One more source material extends the main pairs by its pair and the conflict components by its own. */
  lemma PlanStep(ms: seq<Mapping>, fs: seq<MaterialId>, k: nat)
    requires k < |fs|
    requires forall f :: f in fs ==> |TableFor(ms, f).targets| > 0
    ensures MainSwaps(ms, fs[..k + 1]) == MainSwaps(ms, fs[..k]) + [Swap(fs[k], MainTarget(TableFor(ms, fs[k])))]
    ensures ConflictRecords(ms, fs[..k + 1]) == ConflictRecords(ms, fs[..k]) + FromRecords(TableFor(ms, fs[k]), fs[k])
  {
    assert fs[..k + 1][..k] == fs[..k];
    assert forall f :: f in fs[..k + 1] ==> f in fs;
  }

  /** ProcessMaterialSwapGroups over the dictionary built from the mappings `ms`. */
  method ProcessMaterialSwapGroups(ghost ms: seq<Mapping>, fromOrder: seq<MaterialId>, materialSwapData: map<MaterialId, MaterialSwapInfo>)
    returns (records: seq<Emitted>)
    requires fromOrder == FromOrder(ms)
    requires forall f :: f in fromOrder ==> f in materialSwapData && materialSwapData[f].Table() == TableFor(ms, f)
    ensures records == PlanRecords(ms)
  {
    FromOrderMember(ms);
    var mainSwaps: seq<Swap> := [];
    records := [];
    for k := 0 to |fromOrder|
      invariant mainSwaps == MainSwaps(ms, fromOrder[..k])
      invariant records == ConflictRecords(ms, fromOrder[..k])
    {
      PlanStep(ms, fromOrder, k);
      var fromMaterial := fromOrder[k];
      var swapInfo := materialSwapData[fromMaterial];
      if !swapInfo.HasConflicts() {
        var targetMaterial := swapInfo.targetMaterials[0];
        mainSwaps := mainSwaps + [Swap(fromMaterial, targetMaterial)];
      } else {
        var mostCommonTarget := swapInfo.GetMostCommonTarget();
        mainSwaps := mainSwaps + [Swap(fromMaterial, mostCommonTarget)];
        var extra := ConflictComponents(swapInfo, fromMaterial, mostCommonTarget);
        records := records + extra;
      }
    }
    assert fromOrder[..|fromOrder|] == fromOrder;
    if |mainSwaps| > 0 {
      records := records + [SetupMaterialSwap(mainSwaps)];
    }
  }

  /** The mappings of the first `n` slots of one matched object, slot by slot. */
  function SlotMappings(current: seq<Option<MaterialId>>, source: seq<Option<MaterialId>>, n: nat, obj: Pos): seq<Mapping>
    requires n <= |current| && n <= |source|
  {
    if n == 0 then []
    else
      SlotMappings(current, source, n - 1, obj)
      + (if current[n - 1].Some? && source[n - 1].Some? then [Mapping(current[n - 1].value, source[n - 1].value, obj)] else [])
  }

  lemma {:induction false} SlotMappingsTagged(current: seq<Option<MaterialId>>, source: seq<Option<MaterialId>>, n: nat, obj: Pos)
    requires n <= |current| && n <= |source|
    ensures SlotMappings(current, source, n, obj) == Tagged(SlotSwaps(current, source, n), obj)
  {
    if n > 0 {
      SlotMappingsTagged(current, source, n - 1, obj);
      var before := SlotSwaps(current, source, n - 1);
      if current[n - 1].Some? && source[n - 1].Some? {
        assert (before + [Swap(current[n - 1].value, source[n - 1].value)])[..|before|] == before;
      } else {
        assert before + [] == before;
      }
    }
  }

  /** One more mapping changes only its source material's table, and adds that material if new. */
  lemma TableForSnoc(ms: seq<Mapping>, m: Mapping)
    ensures forall g :: TableFor(ms + [m], g) == if g == m.from then AddToTable(TableFor(ms, g), m.to, m.obj) else TableFor(ms, g)
    ensures FromOrder(ms + [m]) == if m.from in FromOrder(ms) then FromOrder(ms) else FromOrder(ms) + [m.from]
  {
    assert (ms + [m])[..|ms|] == ms;
  }

  /** The dictionary of `MaterialSwapInfo` objects agrees with the mappings made so far. */
  ghost predicate Tracks(ms: seq<Mapping>, fromOrder: seq<MaterialId>, data: map<MaterialId, MaterialSwapInfo>)
    reads data.Values
  {
    fromOrder == FromOrder(ms)
    && (forall f :: f in data <==> f in fromOrder)
    && (forall f, g :: f in data && g in data && f != g ==> data[f] != data[g])
    && (forall f :: f in data ==> data[f].Table() == TableFor(ms, f))
  }

  /** One slot pair of SetupMaterialSwapsForGroup: the source material's info is created if new, then given the mapping. */
  method AddSwapMapping(materialSwapData: map<MaterialId, MaterialSwapInfo>, fromOrder: seq<MaterialId>, ghost ms: seq<Mapping>,
                        fromMaterial: MaterialId, toMaterial: MaterialId, matchedObject: Pos)
    returns (data: map<MaterialId, MaterialSwapInfo>, order: seq<MaterialId>)
    requires Tracks(ms, fromOrder, materialSwapData)
    modifies if fromMaterial in materialSwapData then {materialSwapData[fromMaterial]} else {}
    ensures Tracks(ms + [Mapping(fromMaterial, toMaterial, matchedObject)], order, data)
    ensures forall f :: f in materialSwapData ==> f in data && data[f] == materialSwapData[f]
    ensures forall f :: f in data && f !in materialSwapData ==> fresh(data[f])
  {
    ghost var m := Mapping(fromMaterial, toMaterial, matchedObject);
    TableForSnoc(ms, m);
    data, order := materialSwapData, fromOrder;
    if fromMaterial !in data {
      TableForUnmapped(ms, fromMaterial);
      var info := new MaterialSwapInfo();
      data := data[fromMaterial := info];
      order := order + [fromMaterial];
    }
    data[fromMaterial].AddMapping(toMaterial, matchedObject);
  }

  /** The slot loop of SetupMaterialSwapsForGroup for one matched object. */
  method AddObjectMappings(materialSwapData: map<MaterialId, MaterialSwapInfo>, fromOrder: seq<MaterialId>, ghost ms: seq<Mapping>,
                           currentMaterials: seq<Option<MaterialId>>, sourceMaterials: seq<Option<MaterialId>>, matchedObject: Pos)
    returns (data: map<MaterialId, MaterialSwapInfo>, order: seq<MaterialId>, ghost ms': seq<Mapping>, matches: nat)
    requires Tracks(ms, fromOrder, materialSwapData)
    modifies materialSwapData.Values
    ensures ms' == ms + Tagged(SlotSwaps(currentMaterials, sourceMaterials, Min(|currentMaterials|, |sourceMaterials|)), matchedObject)
    ensures |ms'| == |ms| + matches
    ensures Tracks(ms', order, data)
    ensures forall f :: f in data ==> (f in materialSwapData && data[f] == materialSwapData[f]) || fresh(data[f])
  {
    data, order, ms', matches := materialSwapData, fromOrder, ms, 0;
    ghost var added: seq<Mapping> := [];
    var maxSlots := Min(|currentMaterials|, |sourceMaterials|);
    for i := 0 to maxSlots
      invariant added == SlotMappings(currentMaterials, sourceMaterials, i, matchedObject)
      invariant ms' == ms + added
      invariant |ms'| == |ms| + matches
      invariant Tracks(ms', order, data)
      invariant forall f :: f in data ==> (f in materialSwapData && data[f] == materialSwapData[f]) || fresh(data[f])
    {
      if currentMaterials[i].Some? && sourceMaterials[i].Some? {
        var fromMaterial := currentMaterials[i].value;
        var toMaterial := sourceMaterials[i].value;
        ghost var m := Mapping(fromMaterial, toMaterial, matchedObject);
        data, order := AddSwapMapping(data, order, ms', fromMaterial, toMaterial, matchedObject);
        ConcatAssoc(ms, added, [m]);
        added, ms' := added + [m], ms' + [m];
        matches := matches + 1;
      } else {
        assert added + [] == added;
      }
    }
    SlotMappingsTagged(currentMaterials, sourceMaterials, maxSlots, matchedObject);
  }

  /**
   * SetupMaterialSwapsForGroup: every slot pair is one `AddMapping` call
   * and one match; the table is then turned into components.
   */
  method SetupMaterialSwapsForGroup(entries: seq<Entry>) returns (records: seq<Emitted>, totalMatchCount: nat)
    ensures totalMatchCount == |GroupMappings(entries)| == PairCount(entries)
    ensures records == PlanRecords(GroupMappings(entries))
  {
    var materialSwapData: map<MaterialId, MaterialSwapInfo> := map[];
    var fromOrder: seq<MaterialId> := [];
    ghost var ms: seq<Mapping> := [];
    totalMatchCount := 0;
    for k := 0 to |entries|
      invariant ms == GroupMappings(entries[..k]) && totalMatchCount == |ms|
      invariant Tracks(ms, fromOrder, materialSwapData)
      invariant forall f :: f in materialSwapData ==> fresh(materialSwapData[f])
    {
      assert entries[..k + 1][..k] == entries[..k];
      var sourceSetup := entries[k];
      if sourceSetup.matched.Some? {
        var matches;
        materialSwapData, fromOrder, ms, matches := AddObjectMappings(materialSwapData, fromOrder, ms,
          sourceSetup.matched.value.current, sourceSetup.source, sourceSetup.matched.value.target);
        totalMatchCount := totalMatchCount + matches;
      }
    }
    assert entries[..|entries|] == entries;
    GroupMappingsCount(entries);
    records := ProcessMaterialSwapGroups(ms, fromOrder, materialSwapData);
  }

  /** The records of per-object mode: one component per matched object that forms at least one pair. */
  function PerObjectRecords(entries: seq<Entry>): seq<Emitted>
  {
    if |entries| == 0 then []
    else
      var e := entries[|entries| - 1];
      PerObjectRecords(entries[..|entries| - 1])
      + (if e.matched.Some? && |EntrySwaps(e)| > 0 then [AddMaterialSwapToObject(e.matched.value.target, EntrySwaps(e))] else [])
  }

  /** `r` is the per-object component of entry `e`: a matched object that forms at least one pair, with all its pairs. */
  predicate ObjectRecordOf(e: Entry, r: Emitted)
  {
    e.matched.Some? && |EntrySwaps(e)| > 0 && r == AddMaterialSwapToObject(e.matched.value.target, EntrySwaps(e))
  }

  /** A per-object component exists exactly for a matched entry with at least one pair, and carries all its pairs. */
  lemma {:induction false} PerObjectRecordsMember(entries: seq<Entry>, r: Emitted)
    ensures r in PerObjectRecords(entries) <==> exists e :: e in entries && ObjectRecordOf(e, r)
  {
    if |entries| > 0 {
      var init, last := entries[..|entries| - 1], entries[|entries| - 1];
      PerObjectRecordsMember(init, r);
      assert r in PerObjectRecords(entries) <==> r in PerObjectRecords(init) || ObjectRecordOf(last, r);
      assert entries == init + [last];
      assert forall e :: e in entries <==> e in init || e == last;
    }
  }

  /** SetupMaterialSwapsPerObjectForGroup: a component per matched object with pairs; the count grows by its pairs. */
  method SetupMaterialSwapsPerObjectForGroup(entries: seq<Entry>) returns (records: seq<Emitted>, totalMatchCount: nat)
    ensures records == PerObjectRecords(entries)
    ensures totalMatchCount == PairCount(entries)
  {
    records := [];
    totalMatchCount := 0;
    for k := 0 to |entries|
      invariant records == PerObjectRecords(entries[..k])
      invariant totalMatchCount == PairCount(entries[..k])
    {
      assert entries[..k + 1][..k] == entries[..k];
      var sourceSetup := entries[k];
      if sourceSetup.matched.Some? {
        var currentMaterials := sourceSetup.matched.value.current;
        var maxSlots := Min(|currentMaterials|, |sourceSetup.source|);
        var objectSwaps: seq<Swap> := [];
        for i := 0 to maxSlots
          invariant objectSwaps == SlotSwaps(currentMaterials, sourceSetup.source, i)
        {
          if currentMaterials[i].Some? && sourceSetup.source[i].Some? {
            objectSwaps := objectSwaps + [Swap(currentMaterials[i].value, sourceSetup.source[i].value)];
          }
        }
        if |objectSwaps| > 0 {
          records := records + [AddMaterialSwapToObject(sourceSetup.matched.value.target, objectSwaps)];
          totalMatchCount := totalMatchCount + |objectSwaps|;
        }
      }
    }
    assert entries[..|entries|] == entries;
  }

  /** Both modes count the same matches: one per slot pair. */
  lemma SameMatchCount(entries: seq<Entry>)
    ensures |GroupMappings(entries)| == PairCount(entries)
  {
    GroupMappingsCount(entries);
  }
}
