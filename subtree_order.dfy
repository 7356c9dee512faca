/**
 * The objects of a subtree in the two orders the Component Manager visits
 * them: pre-order, as `GetComponentsInChildren` returns them (the object
 * first, then each child's subtree in index order), and breadth-first, as
 * the queue of `GetOrderedGameObjects` produces them.
 *
 * Objects are scene references (`ObjectRef`): the children of `r` are
 * `r + [0]`, `r + [1]`, and so on.
 */
module SubtreeOrder {
  import opened Collections
  import opened Scene

  predicate AllInScene(scene: seq<GameObject>, q: seq<ObjectRef>)
  {
    forall k :: 0 <= k < |q| ==> InScene(scene, q[k])
  }

  /** The references of the first `n` children of `r`, in index order. */
  function ChildRefs(r: ObjectRef, n: nat): (cs: seq<ObjectRef>)
    ensures |cs| == n
    ensures forall k :: 0 <= k < n ==> cs[k] == r + [k]
  {
    if n == 0 then [] else ChildRefs(r, n - 1) + [r + [n - 1]]
  }

  lemma ChildRefsInScene(scene: seq<GameObject>, r: ObjectRef, n: nat)
    requires InScene(scene, r) && n <= |SceneAt(scene, r).children|
    ensures AllInScene(scene, ChildRefs(r, n))
  {
    forall k | 0 <= k < n
      ensures InScene(scene, ChildRefs(r, n)[k])
    {
      AtSnoc(SceneRoot(scene), r, k);
    }
  }

  /** The subtree of `r` in pre-order. */
  function Subtree(scene: seq<GameObject>, r: ObjectRef): seq<ObjectRef>
    requires InScene(scene, r)
    decreases SceneAt(scene, r), 1
  {
    [r] + ChildSubtrees(scene, r, |SceneAt(scene, r).children|)
  }

  /** The subtrees of the first `i` children of `r`, one after another. */
  function ChildSubtrees(scene: seq<GameObject>, r: ObjectRef, i: nat): seq<ObjectRef>
    requires InScene(scene, r) && i <= |SceneAt(scene, r).children|
    decreases SceneAt(scene, r), 0, i
  {
    if i == 0 then []
    else
      AtSnoc(SceneRoot(scene), r, i - 1);
      ChildSubtrees(scene, r, i - 1) + Subtree(scene, r + [i - 1])
  }

  /** The subtrees of the objects of `q`, one after another. */
  function Forest(scene: seq<GameObject>, q: seq<ObjectRef>): seq<ObjectRef>
    requires AllInScene(scene, q)
  {
    if |q| == 0 then []
    else Forest(scene, q[..|q| - 1]) + Subtree(scene, q[|q| - 1])
  }

  /** The queue after one step: its head removed, that object's children appended. */
  function Next(scene: seq<GameObject>, q: seq<ObjectRef>): seq<ObjectRef>
    requires |q| > 0 && AllInScene(scene, q)
  {
    q[1..] + ChildRefs(q[0], |SceneAt(scene, q[0]).children|)
  }

  /** The objects the queue loop dequeues, in order, starting from queue `q`. */
  function Bfs(scene: seq<GameObject>, q: seq<ObjectRef>): seq<ObjectRef>
    requires AllInScene(scene, q)
    decreases |Forest(scene, q)|
  {
    if |q| == 0 then []
    else
      ForestDequeue(scene, q);
      [q[0]] + Bfs(scene, Next(scene, q))
  }

  // ---------------------------------------------------------------------
  // The pre-order

  /** Every object of the subtree of `r` is in the scene and below-or-at `r`; none occurs twice. */
  lemma {:induction false} SubtreeFacts(scene: seq<GameObject>, r: ObjectRef)
    requires InScene(scene, r)
    ensures AllInScene(scene, Subtree(scene, r))
    ensures forall k :: 0 <= k < |Subtree(scene, r)| ==> r <= Subtree(scene, r)[k]
    ensures Distinct(Subtree(scene, r))
    decreases SceneAt(scene, r), 1
  {
    var n := |SceneAt(scene, r).children|;
    var cs := ChildSubtrees(scene, r, n);
    ChildSubtreesFacts(scene, r, n);
    assert Subtree(scene, r) == [r] + cs;
    DistinctConcat([r], cs);
  }

  lemma {:induction false} ChildSubtreesFacts(scene: seq<GameObject>, r: ObjectRef, i: nat)
    requires InScene(scene, r) && i <= |SceneAt(scene, r).children|
    ensures AllInScene(scene, ChildSubtrees(scene, r, i))
    ensures forall k :: 0 <= k < |ChildSubtrees(scene, r, i)| ==>
      var x := ChildSubtrees(scene, r, i)[k]; |x| > |r| && x[..|r|] == r && x[|r|] < i
    ensures Distinct(ChildSubtrees(scene, r, i))
    decreases SceneAt(scene, r), 0, i
  {
    if i > 0 {
      AtSnoc(SceneRoot(scene), r, i - 1);
      var c := r + [i - 1];
      var a := ChildSubtrees(scene, r, i - 1);
      var b := Subtree(scene, c);
      ChildSubtreesFacts(scene, r, i - 1);
      SubtreeFacts(scene, c);
      forall k | 0 <= k < |b|
        ensures |b[k]| > |r| && b[k][..|r|] == r && b[k][|r|] == i - 1
      {
        assert b[k][..|c|] == c;
        assert b[k][..|r|] == c[..|r|];
      }
      DistinctConcat(a, b);
      assert ChildSubtrees(scene, r, i) == a + b;
    }
  }

  /** The subtree of `r` holds exactly the objects of the scene at or below `r`. */
  lemma {:induction false} SubtreeMember(scene: seq<GameObject>, r: ObjectRef, x: ObjectRef)
    requires InScene(scene, r)
    ensures x in Subtree(scene, r) <==> InScene(scene, x) && r <= x
    decreases SceneAt(scene, r)
  {
    SubtreeFacts(scene, r);
    if InScene(scene, x) && r <= x && x != r {
      var i := x[|r|];
      var root := SceneRoot(scene);
      ValidPrefix(root, x, |r| + 1);
      assert x[..|r| + 1] == r + [i];
      AtSnoc(root, r, i);
      SubtreeMember(scene, r + [i], x);
      ChildSubtreeIn(scene, r, |SceneAt(scene, r).children|, i, x);
    }
  }

  /** What lies in the subtree of child `i < n` lies among the subtrees of the first `n` children. */
  lemma {:induction false} ChildSubtreeIn(scene: seq<GameObject>, r: ObjectRef, n: nat, i: nat, x: ObjectRef)
    requires InScene(scene, r) && i < n <= |SceneAt(scene, r).children|
    requires InScene(scene, r + [i]) && x in Subtree(scene, r + [i])
    ensures x in ChildSubtrees(scene, r, n)
  {
    if i < n - 1 {
      ChildSubtreeIn(scene, r, n - 1, i, x);
    }
  }

  // ---------------------------------------------------------------------
  // Queues

  lemma {:induction false} ForestConcat(scene: seq<GameObject>, a: seq<ObjectRef>, b: seq<ObjectRef>)
    requires AllInScene(scene, a) && AllInScene(scene, b)
    ensures AllInScene(scene, a + b)
    ensures Forest(scene, a + b) == Forest(scene, a) + Forest(scene, b)
  {
    if |b| == 0 {
      assert a + b == a;
    } else {
      var b' := b[..|b| - 1];
      assert (a + b)[..|a + b| - 1] == a + b';
      assert (a + b)[|a + b| - 1] == b[|b| - 1];
      ForestConcat(scene, a, b');
      ConcatAssoc(Forest(scene, a), Forest(scene, b'), Subtree(scene, b[|b| - 1]));
    }
  }

  /** The subtrees of the children, taken one after another, are what hangs below `r`. */
  lemma {:induction false} ForestChildren(scene: seq<GameObject>, r: ObjectRef, n: nat)
    requires InScene(scene, r) && n <= |SceneAt(scene, r).children|
    ensures AllInScene(scene, ChildRefs(r, n))
    ensures Forest(scene, ChildRefs(r, n)) == ChildSubtrees(scene, r, n)
  {
    ChildRefsInScene(scene, r, n);
    if n > 0 {
      ChildRefsInScene(scene, r, n - 1);
      assert ChildRefs(r, n)[..n - 1] == ChildRefs(r, n - 1);
      ForestChildren(scene, r, n - 1);
    }
  }

  /** One queue step removes exactly its head from the objects still to visit. */
  lemma ForestDequeue(scene: seq<GameObject>, q: seq<ObjectRef>)
    requires |q| > 0 && AllInScene(scene, q)
    ensures AllInScene(scene, Next(scene, q))
    ensures Forest(scene, q) == [q[0]] + ChildSubtrees(scene, q[0], |SceneAt(scene, q[0]).children|) + Forest(scene, q[1..])
    ensures Forest(scene, Next(scene, q)) == Forest(scene, q[1..]) + ChildSubtrees(scene, q[0], |SceneAt(scene, q[0]).children|)
  {
    var n := |SceneAt(scene, q[0]).children|;
    var head, rest := [q[0]], q[1..];
    assert AllInScene(scene, head) && AllInScene(scene, rest);
    ForestChildren(scene, q[0], n);
    ForestConcat(scene, rest, ChildRefs(q[0], n));
    assert q == head + rest;
    ForestConcat(scene, head, rest);
    ForestSingle(scene, q[0]);
  }

  lemma ForestSingle(scene: seq<GameObject>, r: ObjectRef)
    requires InScene(scene, r)
    ensures AllInScene(scene, [r])
    ensures Forest(scene, [r]) == Subtree(scene, r)
  {
    assert [r][..0] == [];
  }

  /** One queue step leaves fewer objects to visit. */
  lemma ForestShrinks(scene: seq<GameObject>, q: seq<ObjectRef>)
    requires |q| > 0 && AllInScene(scene, q)
    ensures AllInScene(scene, Next(scene, q))
    ensures |Forest(scene, Next(scene, q))| < |Forest(scene, q)|
  {
    ForestDequeue(scene, q);
  }

  /** The queue loop visits each object of the queued subtrees, and nothing else, once. */
  lemma {:induction false} BfsPermutation(scene: seq<GameObject>, q: seq<ObjectRef>)
    requires AllInScene(scene, q)
    ensures multiset(Bfs(scene, q)) == multiset(Forest(scene, q))
    decreases |Forest(scene, q)|
  {
    if |q| > 0 {
      ForestDequeue(scene, q);
      BfsPermutation(scene, Next(scene, q));
    }
  }

  /** Queue elements are ordered by depth, and the last is at most one level below the first. */
  predicate LevelQueue(q: seq<ObjectRef>)
  {
    ByDepth(q) && (|q| > 0 ==> |q[|q| - 1]| <= |q[0]| + 1)
  }

  /** No object comes before one that is less deep. */
  predicate ByDepth(s: seq<ObjectRef>)
  {
    forall i, j :: 0 <= i < j < |s| ==> |s[i]| <= |s[j]|
  }

  lemma NextLevel(scene: seq<GameObject>, q: seq<ObjectRef>)
    requires |q| > 0 && AllInScene(scene, q) && LevelQueue(q)
    ensures LevelQueue(Next(scene, q))
    ensures forall k :: 0 <= k < |Next(scene, q)| ==> |Next(scene, q)[k]| >= |q[0]|
  {
    var n := |SceneAt(scene, q[0]).children|;
    var cs := ChildRefs(q[0], n);
    var nq := Next(scene, q);
    assert forall k :: 0 <= k < |cs| ==> |cs[k]| == |q[0]| + 1;
    forall i, j | 0 <= i < j < |nq|
      ensures |nq[i]| <= |nq[j]|
    {
      if j >= |q| - 1 && i < |q| - 1 {
        assert nq[i] == q[i + 1];
      }
    }
  }

  /** The objects below a queue are no shallower than its shallowest entry. */
  lemma {:induction false} ForestDepth(scene: seq<GameObject>, q: seq<ObjectRef>, d: nat)
    requires AllInScene(scene, q)
    requires forall k :: 0 <= k < |q| ==> |q[k]| >= d
    ensures forall k :: 0 <= k < |Forest(scene, q)| ==> |Forest(scene, q)[k]| >= d
  {
    if |q| > 0 {
      ForestDepth(scene, q[..|q| - 1], d);
      SubtreeFacts(scene, q[|q| - 1]);
    }
  }

  lemma BfsDepth(scene: seq<GameObject>, q: seq<ObjectRef>, d: nat, x: ObjectRef)
    requires AllInScene(scene, q)
    requires forall k :: 0 <= k < |q| ==> |q[k]| >= d
    requires x in Bfs(scene, q)
    ensures |x| >= d
  {
    BfsPermutation(scene, q);
    assert x in multiset(Forest(scene, q));
    ForestDepth(scene, q, d);
  }

  lemma FilteredBfsDepth(scene: seq<GameObject>, q: seq<ObjectRef>, d: nat, f: ObjectRef -> bool)
    requires AllInScene(scene, q)
    requires forall k :: 0 <= k < |q| ==> |q[k]| >= d
    ensures forall k :: 0 <= k < |Filter(Bfs(scene, q), f)| ==> |Filter(Bfs(scene, q), f)[k]| >= d
  {
    var rest := Filter(Bfs(scene, q), f);
    forall k | 0 <= k < |rest|
      ensures |rest[k]| >= d
    {
      BfsDepth(scene, q, d, rest[k]);
    }
  }

  /** From a level-ordered queue, every filtered run of the loop lists objects by depth. */
  lemma {:induction false} BfsByDepth(scene: seq<GameObject>, q: seq<ObjectRef>, f: ObjectRef -> bool)
    requires AllInScene(scene, q) && LevelQueue(q)
    ensures ByDepth(Filter(Bfs(scene, q), f))
    decreases |Forest(scene, q)|
  {
    if |q| > 0 {
      ForestShrinks(scene, q);
      var nq := Next(scene, q);
      NextLevel(scene, q);
      BfsByDepth(scene, nq, f);
      FilteredBfsDepth(scene, nq, |q[0]|, f);
      assert Bfs(scene, q) == [q[0]] + Bfs(scene, nq);
      ByDepthStep(q[0], Bfs(scene, nq), f);
    }
  }

  lemma ByDepthStep(x: ObjectRef, b: seq<ObjectRef>, f: ObjectRef -> bool)
    requires ByDepth(Filter(b, f))
    requires forall k :: 0 <= k < |Filter(b, f)| ==> |Filter(b, f)[k]| >= |x|
    ensures ByDepth(Filter([x] + b, f))
  {
    FilterConcat([x], b, f);
    if f(x) {
      assert Filter([x], f) == [x];
      ByDepthCons(x, Filter(b, f));
    } else {
      assert Filter([x], f) == [];
      assert Filter([x] + b, f) == Filter(b, f);
    }
  }

  lemma ByDepthCons(x: ObjectRef, rest: seq<ObjectRef>)
    requires ByDepth(rest)
    requires forall k :: 0 <= k < |rest| ==> |rest[k]| >= |x|
    ensures ByDepth([x] + rest)
  {
    var s := [x] + rest;
    forall i, j | 0 <= i < j < |s|
      ensures |s[i]| <= |s[j]|
    {
      assert s[j] == rest[j - 1];
      if i > 0 {
        assert s[i] == rest[i - 1];
      }
    }
  }

  /**
   * Starting from `a`, the queue loop, filtered by `f`, lists exactly the
   * objects of `a`'s subtree that pass `f`, each once, none before a
   * shallower one.
   */
  lemma BreadthFirst(scene: seq<GameObject>, a: ObjectRef, f: ObjectRef -> bool)
    requires InScene(scene, a)
    ensures multiset(Filter(Bfs(scene, [a]), f)) == multiset(Filter(Subtree(scene, a), f))
    ensures Distinct(Filter(Bfs(scene, [a]), f))
    ensures ByDepth(Filter(Bfs(scene, [a]), f))
  {
    assert AllInScene(scene, [a]);
    BfsPermutation(scene, [a]);
    ForestSingle(scene, a);
    FilterPermutation(Bfs(scene, [a]), Subtree(scene, a), f);
    SubtreeFacts(scene, a);
    FilterDistinct(Subtree(scene, a), f);
    DistinctPermutation(Filter(Subtree(scene, a), f), Filter(Bfs(scene, [a]), f));
    BfsByDepth(scene, [a], f);
  }

  /** The objects below a queue of scene objects are scene objects. */
  lemma {:induction false} ForestInScene(scene: seq<GameObject>, q: seq<ObjectRef>)
    requires AllInScene(scene, q)
    ensures AllInScene(scene, Forest(scene, q))
  {
    if |q| > 0 {
      ForestInScene(scene, q[..|q| - 1]);
      SubtreeFacts(scene, q[|q| - 1]);
    }
  }

  /** The queue loop only visits scene objects. */
  lemma BfsInScene(scene: seq<GameObject>, q: seq<ObjectRef>)
    requires AllInScene(scene, q)
    ensures AllInScene(scene, Bfs(scene, q))
  {
    BfsPermutation(scene, q);
    ForestInScene(scene, q);
    var b := Bfs(scene, q);
    forall k | 0 <= k < |b|
      ensures InScene(scene, b[k])
    {
      assert b[k] in multiset(Forest(scene, q));
    }
  }

  lemma FilterInScene(scene: seq<GameObject>, s: seq<ObjectRef>, f: ObjectRef -> bool)
    requires AllInScene(scene, s)
    ensures AllInScene(scene, Filter(s, f))
  {
  }
}
