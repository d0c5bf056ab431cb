/** PluginRegistry::topological_order: Kahn's algorithm with the iteration order of every hash map left open. */
module TopologicalOrder {
  import opened DependencyGraph
  import opened Plugins
  import opened Sequences
  import opened Wrappers

  // ---------- the order of str ----------

  predicate Below(a: string, b: string) {
    if a == [] then true
    else if b == [] then false
    else a[0] < b[0] || (a[0] == b[0] && Below(a[1..], b[1..]))
  }

  /** At k the strings differ for the first time, and a has the smaller character there. */
  predicate SmallerAt(a: string, b: string, k: int) {
    0 <= k < |a| && k < |b| && a[..k] == b[..k] && a[k] < b[k]
  }

  lemma {:induction false} SmallerAtShifts(a: string, b: string, k: nat)
    requires a != [] && b != [] && a[0] == b[0]
    ensures SmallerAt(a[1..], b[1..], k) <==> SmallerAt(a, b, k + 1)
  {
    if k < |a[1..]| && k < |b[1..]| {
      assert a[..k + 1] == [a[0]] + a[1..][..k] && b[..k + 1] == [b[0]] + b[1..][..k];
      assert a[1..][..k] == a[..k + 1][1..] && b[1..][..k] == b[..k + 1][1..];
    }
  }

  /** The order of the source's strings: a prefix comes first, otherwise the first difference decides. */
  lemma {:induction false} BelowIsLexicographic(a: string, b: string)
    ensures Below(a, b) <==> a <= b || exists k :: SmallerAt(a, b, k)
  {
    if a != [] && b != [] && a[0] == b[0] {
      BelowIsLexicographic(a[1..], b[1..]);
      assert a <= b <==> a[1..] <= b[1..] by { assert a == [a[0]] + a[1..] && b == [b[0]] + b[1..]; }
      assert Below(a, b) <==> Below(a[1..], b[1..]);
      hide Below;
      if k :| SmallerAt(a, b, k) {
        assert k > 0;
        SmallerAtShifts(a, b, k - 1);
        assert SmallerAt(a[1..], b[1..], k - 1);
      } else if k :| SmallerAt(a[1..], b[1..], k) {
        SmallerAtShifts(a, b, k);
        assert SmallerAt(a, b, k + 1);
      }
    } else if a != [] && b != [] {
      assert a[0] < b[0] ==> SmallerAt(a, b, 0);
      if k :| SmallerAt(a, b, k) {
        assert k > 0 ==> a[..k][0] == b[..k][0];
      }
    }
  }

  lemma {:induction false} BelowTotal(a: string, b: string)
    ensures Below(a, b) || Below(b, a)
  {
    if a != [] && b != [] { BelowTotal(a[1..], b[1..]); }
  }

  lemma {:induction false} BelowTransitive(a: string, b: string, c: string)
    requires Below(a, b) && Below(b, c)
    ensures Below(a, c)
  {
    if a != [] && b != [] && c != [] && a[0] == b[0] == c[0] { BelowTransitive(a[1..], b[1..], c[1..]); }
  }

  predicate Ascending(s: seq<string>) {
    forall i, j :: 0 <= i < j < |s| ==> Below(s[i], s[j])
  }

  function InsertInOrder(x: string, s: seq<string>): seq<string> {
    if s == [] || Below(x, s[0]) then [x] + s else [s[0]] + InsertInOrder(x, s[1..])
  }

  lemma {:induction false} InsertKeepsOrder(x: string, s: seq<string>)
    requires Ascending(s) && Distinct(s) && x !in s
    ensures var t := InsertInOrder(x, s); Ascending(t) && Distinct(t) && forall y :: y in t <==> y in s || y == x
  {
    if s != [] {
      BelowTotal(x, s[0]);
      if Below(x, s[0]) {
        forall j | 1 <= j < |s| ensures Below(x, s[j]) { BelowTransitive(x, s[0], s[j]); }
      } else {
        InsertKeepsOrder(x, s[1..]);
        hide Below, InsertInOrder;
        var rest := InsertInOrder(x, s[1..]);
        assert forall j :: 0 <= j < |rest| ==> rest[j] in rest;
        assert s == [s[0]] + s[1..];
        assert InsertInOrder(x, s) == [s[0]] + rest;
      }
    }
  }

  method SortIds(ids: set<string>) returns (sorted: seq<string>)
    ensures Ascending(sorted) && Distinct(sorted) && Elements(sorted) == ids
  {
    sorted := [];
    var todo := ids;
    while todo != {}
      invariant Ascending(sorted) && Distinct(sorted) && todo <= ids && Elements(sorted) == ids - todo
    {
      var x :| x in todo;
      assert x !in Elements(sorted);
      InsertKeepsOrder(x, sorted);
      ghost var before := sorted;
      sorted := InsertInOrder(x, sorted);
      assert Elements(sorted) == Elements(before) + {x};
      todo := todo - {x};
    }
  }

  // ---------- the loops ----------

  method BuildGraph(manifests: seq<PluginManifest>) returns (deps: Graph)
    ensures deps == GraphOf(manifests)
  {
    var ids := Ids(manifests);
    deps := map[];
    for i := 0 to |manifests|
      invariant deps.Keys == Ids(manifests[..i])
      invariant forall id :: id in deps ==> deps[id] == Among(ManifestOf(manifests[..i], id).dependencies, ids)
    {
      var m := manifests[i];
      deps := deps[m.id := Among(m.dependencies, ids)];
      assert manifests[..i + 1] == manifests[..i] + [m];
      assert manifests[..i + 1][..i] == manifests[..i];
      assert Ids(manifests[..i + 1]) == Ids(manifests[..i]) + {m.id} by {
        assert manifests[..i + 1][i] == m;
        assert forall k :: 0 <= k < i ==> manifests[..i + 1][k] == manifests[..i][k];
      }
    }
    assert manifests[..|manifests|] == manifests;
  }

  method InDegrees(deps: Graph) returns (inDegree: map<string, nat>)
    ensures inDegree.Keys == deps.Keys
    ensures forall x :: x in deps ==> inDegree[x] == |deps[x]|
  {
    inDegree := map id | id in deps :: 0;
    var todo := deps.Keys;
    while todo != {}
      invariant todo <= deps.Keys == inDegree.Keys
      invariant forall x :: x in deps && x !in todo ==> inDegree[x] == |deps[x]|
    {
      var id :| id in todo;
      inDegree := inDegree[id := |deps[id]|];
      todo := todo - {id};
    }
  }

  /** The in-degrees count what is not in `done`, and the queue holds the plugins that became ready
      and are not in `done`. */
  predicate Counted(g: Graph, inDegree: map<string, nat>, done: set<string>, queue: seq<string>) {
    && inDegree.Keys == g.Keys
    && (forall x :: x in g ==> inDegree[x] == Degree(g, x, done))
    && Distinct(queue) && (forall x :: x in queue ==> x in g && x !in done)
    && (forall x :: x in g ==> (x in done || x in queue <==> inDegree[x] == 0))
  }

  function Charge(g: Graph, id: string, x: string): nat
    requires x in g
  {
    if id in g[x] then 1 else 0
  }

  /** The inner loop: every plugin that depends on `id` loses one, and is queued when it reaches zero. */
  method Finish(g: Graph, id: string, inDegree: map<string, nat>, queue: seq<string>)
    returns (inDegree': map<string, nat>, queue': seq<string>)
    requires inDegree.Keys == g.Keys && Distinct(queue)
    requires forall x :: x in g ==> inDegree[x] >= Charge(g, id, x)
    requires forall x :: x in queue && x in g ==> Charge(g, id, x) == 0
    ensures inDegree'.Keys == g.Keys && forall x :: x in g ==> inDegree'[x] == inDegree[x] - Charge(g, id, x)
    ensures queue <= queue' && Distinct(queue')
    ensures forall x :: x in queue' <==> x in queue || (x in g && Charge(g, id, x) == 1 == inDegree[x])
  {
    inDegree', queue' := inDegree, queue;
    var todo := g.Keys;
    while todo != {}
      invariant todo <= g.Keys == inDegree'.Keys && queue <= queue' && Distinct(queue')
      invariant forall x :: x in g ==> inDegree'[x] == inDegree[x] - (if x in todo then 0 else Charge(g, id, x))
      invariant forall x :: x in queue' <==>
        x in queue || (x in g && x !in todo && Charge(g, id, x) == 1 == inDegree[x])
    {
      var dependent :| dependent in todo;
      if id in g[dependent] {
        inDegree' := inDegree'[dependent := inDegree'[dependent] - 1];
        if inDegree'[dependent] == 0 {
          queue' := Enqueue(queue', dependent);
        }
      }
      todo := todo - {dependent};
    }
  }

  lemma ChargesCovered(g: Graph, id: string, inDegree: map<string, nat>, done: set<string>, queue: seq<string>)
    requires id in g && id !in done && Counted(g, inDegree, done, [id] + queue)
    ensures forall x :: x in g ==> inDegree[x] >= Charge(g, id, x)
    ensures forall x :: x in queue && x in g ==> Charge(g, id, x) == 0
  {
    QueueTail(id, queue);
    forall x | x in g ensures inDegree[x] >= Charge(g, id, x) {
      DegreeDrops(g, x, done, id);
      DegreeZeroIffReady(g, x, done + {id});
    }
  }

  lemma CountedAfterFinish(g: Graph, id: string, inDegree: map<string, nat>, done: set<string>, queue: seq<string>,
                           inDegree': map<string, nat>, queue': seq<string>)
    requires id in g && id !in done && id !in queue && Counted(g, inDegree, done, [id] + queue)
    requires inDegree'.Keys == g.Keys && forall x :: x in g ==> inDegree'[x] == inDegree[x] - Charge(g, id, x)
    requires Distinct(queue')
    requires forall x :: x in queue' <==> x in queue || (x in g && Charge(g, id, x) == 1 == inDegree[x])
    ensures Counted(g, inDegree', done + {id}, queue')
  {
    QueueTail(id, queue);
    forall x | x in g ensures inDegree'[x] == Degree(g, x, done + {id}) { DegreeDrops(g, x, done, id); }
    assert inDegree[id] == 0;
  }

  method FinishCounted(g: Graph, id: string, inDegree: map<string, nat>, ghost done: set<string>, queue: seq<string>)
    returns (inDegree': map<string, nat>, queue': seq<string>)
    requires id in g && id !in done && id !in queue && Counted(g, inDegree, done, [id] + queue)
    ensures Counted(g, inDegree', done + {id}, queue') && queue <= queue'
  {
    ChargesCovered(g, id, inDegree, done, queue);
    QueueTail(id, queue);
    inDegree', queue' := Finish(g, id, inDegree, queue);
    CountedAfterFinish(g, id, inDegree, done, queue, inDegree', queue');
  }

  function Enqueue(queue: seq<string>, x: string): (longer: seq<string>)
    requires Distinct(queue) && x !in queue
    ensures Distinct(longer) && queue <= longer
    ensures forall y :: y in longer <==> y in queue || y == x
  {
    queue + [x]
  }

  lemma QueueTail(id: string, queue: seq<string>)
    ensures forall x :: x in [id] + queue <==> x == id || x in queue
    ensures Distinct([id] + queue) ==> Distinct(queue)
  {
    assert forall k :: 0 <= k < |queue| ==> ([id] + queue)[k + 1] == queue[k];
  }

  lemma SoundGrows(g: Graph, order: seq<string>, id: string)
    requires Sound(g, order) && id !in order && Ready(g, id, Elements(order))
    ensures Sound(g, order + [id])
    ensures Elements(order + [id]) == Elements(order) + {id}
  {
    assert (order + [id])[..|order|] == order;
  }

  /** The roots of the graph, in ascending order, come first. */
  ghost predicate StartsWithSortedRoots(g: Graph, order: seq<string>) {
    exists roots :: roots <= order && Ascending(roots) && Elements(roots) == set x | x in g && g[x] == []
  }

  lemma HeadIsNext(g: Graph, inDegree: map<string, nat>, order: seq<string>, id: string, queue: seq<string>)
    requires Sound(g, order) && Counted(g, inDegree, Elements(order), [id] + queue)
    ensures id in g && id !in order && id !in queue
    ensures Sound(g, order + [id]) && Elements(order + [id]) == Elements(order) + {id}
  {
    assert ([id] + queue)[0] == id;
    assert forall k :: 0 <= k < |queue| ==> ([id] + queue)[k + 1] == queue[k];
    DegreeZeroIffReady(g, id, Elements(order));
    SoundGrows(g, order, id);
  }

  lemma QueueGrows(order: seq<string>, id: string, rest: seq<string>, queue': seq<string>)
    requires rest <= queue'
    ensures order + ([id] + rest) <= (order + [id]) + queue'
  {
    assert order + ([id] + rest) == (order + [id]) + rest;
  }

  /** One turn of the main loop: take the head of the queue and finish it. */
  method Turn(g: Graph, inDegree: map<string, nat>, order: seq<string>, queue: seq<string>)
    returns (inDegree': map<string, nat>, order': seq<string>, queue': seq<string>)
    requires queue != [] && Sound(g, order) && Counted(g, inDegree, Elements(order), queue)
    ensures Sound(g, order') && Counted(g, inDegree', Elements(order'), queue')
    ensures order' == order + [queue[0]] && order + queue <= order' + queue'
    ensures |order'| <= |g|
  {
    var id := queue[0];
    ghost var rest := queue[1..];
    assert queue == [id] + rest;
    HeadIsNext(g, inDegree, order, id, rest);
    order' := order + [id];
    OrderFits(g, order');
    inDegree', queue' := FinishCounted(g, id, inDegree, Elements(order), queue[1..]);
    QueueGrows(order, id, rest, queue');
  }

  lemma StartIsCounted(g: Graph, inDegree: map<string, nat>, queue: seq<string>)
    requires inDegree.Keys == g.Keys && forall x :: x in g ==> inDegree[x] == |g[x]|
    requires Distinct(queue) && Elements(queue) == set id | id in inDegree && inDegree[id] == 0
    ensures Counted(g, inDegree, {}, queue)
  {
    forall x | x in g ensures Degree(g, x, {}) == |g[x]| { assert Elements(g[x]) * {} == {}; }
    assert forall x :: x in queue <==> x in Elements(queue);
  }

  /** Kahn's loop ends with a sound order outside which nothing is ready. */
  method Kahn(g: Graph) returns (order: seq<string>)
    requires Closed(g)
    ensures Sound(g, order)
    ensures forall x :: x in g && x !in order ==> !Ready(g, x, Elements(order))
    ensures StartsWithSortedRoots(g, order)
  {
    hide Degree, Ready;
    var inDegree := InDegrees(g);
    var queue := SortIds(set id | id in inDegree && inDegree[id] == 0);
    ghost var roots := queue;
    assert Elements(roots) == set x | x in g && g[x] == [];
    order := [];
    StartIsCounted(g, inDegree, queue);
    assert Elements(order) == {};
    while queue != []
      invariant Sound(g, order) && Counted(g, inDegree, Elements(order), queue)
      invariant roots <= order + queue
      decreases |g| - |order|
    {
      inDegree, order, queue := Turn(g, inDegree, order, queue);
    }
    NothingElseReady(g, inDegree, order);
    assert order + [] == order;
  }

  lemma NothingElseReady(g: Graph, inDegree: map<string, nat>, order: seq<string>)
    requires Counted(g, inDegree, Elements(order), [])
    ensures forall x :: x in g && x !in order ==> !Ready(g, x, Elements(order))
  {
    forall x | x in g && x !in order ensures !Ready(g, x, Elements(order)) {
      DegreeZeroIffReady(g, x, Elements(order));
    }
  }

  lemma OrderFits(g: Graph, order: seq<string>)
    requires Sound(g, order)
    ensures |order| <= |g|
  {
    SoundIsDistinct(g, order);
    DistinctFits(order, g.Keys);
  }

  lemma FullOrderIsLoadOrder(g: Graph, order: seq<string>)
    requires Sound(g, order)
    ensures |order| != |g| ==> g.Keys - Elements(order) != {}
    ensures |order| == |g| ==> Elements(order) == g.Keys
    ensures |order| == |g| ==> IsLoadOrder(g, order)
  {
    SoundIsDistinct(g, order);
    DistinctCount(order);
    SubsetSize(Elements(order), g.Keys);
    assert g.Keys == Elements(order) + (g.Keys - Elements(order));
    forall i | 0 <= i < |order| ensures Elements(g[order[i]]) <= Elements(order[..i]) { SoundAt(g, order, i); }
  }

  /** topological_order.  It succeeds with a load order, the dependency-free plugins first and in
      ascending order, exactly when no plugin is doomed; otherwise it names exactly the doomed ones.  It
      fails exactly on cycles and repetitions, so its verdict is that of a cycle detector unless there is
      a repetition and no cycle, and what it names is what depends on a cycle unless a plugin with a
      repetition does not. */
  method TopologicalOrder(manifests: seq<PluginManifest>) returns (r: Result<seq<string>, set<string>>)
    ensures match r
      case Ok(order) =>
        var g := GraphOf(manifests);
        IsLoadOrder(g, order) && StartsWithSortedRoots(g, order) && Doomed(g) == {}
      case Err(remaining) => remaining == Doomed(GraphOf(manifests)) != {}
    ensures r.Err? <==> HasCycle(GraphOf(manifests)) || HasRepetition(GraphOf(manifests))
    ensures r.Err? ==> (r.error == Blocked(GraphOf(manifests)) <==> RepetitionsAreBlocked(GraphOf(manifests)))
    ensures (r.Err? <==> HasCycle(GraphOf(manifests)))
       <==> (HasRepetition(GraphOf(manifests)) ==> HasCycle(GraphOf(manifests)))
  {
    hide Doomed, Blocked, HasCycle, HasRepetition, RepetitionsAreBlocked;
    var g := BuildGraph(manifests);
    RemainderExistsIff(g);
    RemainderIsExactIff(g);
    var order := Kahn(g);
    RemainingIsDoomed(g, order);
    FullOrderIsLoadOrder(g, order);
    SoundIsDistinct(g, order);
    if |order| != |g| {
      var remaining := set id | id in g && id !in order;
      assert remaining == g.Keys - Elements(order);
      r := Err(remaining);
    } else {
      r := Ok(order);
    }
  }

  /** The error text says "cycle", but a list that repeats a supplied plugin has the same effect: here
      nothing is cyclic, and yet `a` can never be ordered. */
  lemma RepeatedDependencyBlocksWithoutCycle()
    ensures var g := GraphOf([PluginManifest("a", ["b", "b"]), PluginManifest("b", [])]);
      "a" in Doomed(g) && forall x :: x in g ==> !DependsOnCycle(g, x)
  {
    var manifests := [PluginManifest("a", ["b", "b"]), PluginManifest("b", [])];
    var g := GraphOf(manifests);
    assert manifests[0].id == "a" && manifests[1].id == "b";
    assert Ids(manifests) == {"a", "b"};
    assert g["a"] == ["b", "b"] && g["b"] == [] by {
      assert manifests[..1] == [PluginManifest("a", ["b", "b"])];
      assert Among(["b"], {"a", "b"}) == ["b"];
    }
    assert IsPath(g, ["a"]) && Stuck(g, "a");
    forall p, x | Joins(g, p, x, x) ensures |p| < 2 { ShortPaths(g, p); }
  }

  lemma StepInside(g: Graph, p: seq<string>, i: nat)
    requires IsPath(g, p) && i < |p| - 1
    ensures p[i] in g && p[i + 1] in g[p[i]]
  {
  }

  lemma ShortPaths(g: Graph, p: seq<string>)
    requires g.Keys == {"a", "b"} && g["a"] == ["b", "b"] && g["b"] == [] && IsPath(g, p)
    ensures |p| <= 2 && (|p| == 2 ==> p == ["a", "b"])
  {
    if |p| >= 3 {
      StepInside(g, p, 0);
      StepInside(g, p, 1);
      assert false;
    } else if |p| == 2 {
      assert p[1] in g[p[0]];
    }
  }
}
