/**
Dependency ordering of plugin manifests: the graph Kahn's algorithm walks, what a load order is, and
exactly which plugins can never be loaded.
*/
module DependencyGraph {
  import opened Plugins
  import opened Sequences

  /** Each plugin with its dependencies, restricted to the supplied plugins. */
  type Graph = map<string, seq<string>>

  function Ids(manifests: seq<PluginManifest>): set<string> {
    set i | 0 <= i < |manifests| :: manifests[i].id
  }

  function Among(dependencies: seq<string>, ids: set<string>): (kept: seq<string>)
    ensures forall d :: d in kept <==> d in dependencies && d in ids
  {
    if dependencies == [] then []
    else (if dependencies[0] in ids then [dependencies[0]] else []) + Among(dependencies[1..], ids)
  }

  lemma {:induction false} AmongOneMore(dependencies: seq<string>, d: string, ids: set<string>)
    ensures Among(dependencies + [d], ids) == Among(dependencies, ids) + if d in ids then [d] else []
  {
    if dependencies != [] {
      assert (dependencies + [d])[1..] == dependencies[1..] + [d];
      AmongOneMore(dependencies[1..], d, ids);
    }
  }

  /** The last manifest that carries the id. */
  function ManifestOf(manifests: seq<PluginManifest>, id: string): (m: PluginManifest)
    requires id in Ids(manifests)
    ensures m in manifests && m.id == id
  {
    var last := manifests[|manifests| - 1];
    if last.id == id then last
    else
      assert id in Ids(manifests[..|manifests| - 1]) by {
        var i :| 0 <= i < |manifests| && manifests[i].id == id;
        assert manifests[..|manifests| - 1][i] == manifests[i];
      }
      ManifestOf(manifests[..|manifests| - 1], id)
  }

  /** The k-th manifest is the last one with its id. */
  predicate IsLast(manifests: seq<PluginManifest>, k: int) {
    0 <= k < |manifests| && forall later :: k < later < |manifests| ==> manifests[later].id != manifests[k].id
  }

  lemma {:induction false} LastManifestCounts(manifests: seq<PluginManifest>, k: int)
    requires IsLast(manifests, k)
    ensures manifests[k].id in Ids(manifests) && ManifestOf(manifests, manifests[k].id) == manifests[k]
  {
    var front := manifests[..|manifests| - 1];
    if k < |front| {
      assert manifests[|front|].id != manifests[k].id;
      assert front[k] == manifests[k] && forall j :: k < j < |front| ==> front[j] == manifests[j];
      LastManifestCounts(front, k);
    }
  }

  lemma {:induction false} SomeLast(manifests: seq<PluginManifest>, id: string) returns (k: int)
    requires id in Ids(manifests)
    ensures IsLast(manifests, k) && manifests[k].id == id
  {
    var front := manifests[..|manifests| - 1];
    if manifests[|front|].id == id {
      k := |front|;
    } else {
      assert id in Ids(front) by {
        var i :| 0 <= i < |manifests| && manifests[i].id == id;
        assert front[i] == manifests[i];
      }
      k := SomeLast(front, id);
      assert forall j :: 0 <= j < |front| ==> front[j] == manifests[j];
    }
  }

  /** A later manifest replaces an earlier one with the same id. */
  function GraphOf(manifests: seq<PluginManifest>): (g: Graph)
    ensures Closed(g) && g.Keys == Ids(manifests)
  {
    map id | id in Ids(manifests) :: Among(ManifestOf(manifests, id).dependencies, Ids(manifests))
  }

  predicate Closed(g: Graph) {
    forall x, d :: x in g && d in g[x] ==> d in g
  }

  // ---------- what makes a plugin unloadable ----------

  predicate IsPath(g: Graph, p: seq<string>) {
    && |p| >= 1 && p[0] in g
    && forall i :: 0 <= i < |p| - 1 ==> p[i] in g && p[i + 1] in g[p[i]]
  }

  ghost predicate Joins(g: Graph, p: seq<string>, from: string, to: string) {
    IsPath(g, p) && p[0] == from && p[|p| - 1] == to
  }

  ghost predicate OnCycle(g: Graph, x: string) {
    exists p :: Joins(g, p, x, x) && |p| >= 2
  }

  ghost predicate DependsOnCycle(g: Graph, x: string) {
    exists p :: IsPath(g, p) && p[0] == x && OnCycle(g, p[|p| - 1])
  }

  /** A plugin Kahn's algorithm can never finish by itself: it lies on a cycle, or its manifest names
      some supplied plugin twice, which counts twice in its in-degree and is taken off once. */
  ghost predicate Stuck(g: Graph, x: string) {
    x in g && (OnCycle(g, x) || !Distinct(g[x]))
  }

  ghost predicate DependsOnStuck(g: Graph, x: string) {
    exists p :: IsPath(g, p) && p[0] == x && Stuck(g, p[|p| - 1])
  }

  // ---------- load orders ----------

  /** x may come next once the plugins in `done` are loaded. */
  predicate Ready(g: Graph, x: string, done: set<string>) {
    x in g && Distinct(g[x]) && Elements(g[x]) <= done
  }

  /** Every plugin was ready when its turn came. */
  predicate Sound(g: Graph, order: seq<string>)
    decreases |order|
  {
    order == [] ||
      var before := order[..|order| - 1];
      Sound(g, before) && order[|order| - 1] !in before && Ready(g, order[|order| - 1], Elements(before))
  }

  lemma {:induction false} SoundAt(g: Graph, order: seq<string>, i: nat)
    requires Sound(g, order) && i < |order|
    ensures Ready(g, order[i], Elements(order[..i])) && order[i] !in order[..i]
    decreases |order|
  {
    var before := order[..|order| - 1];
    if i < |before| {
      SoundAt(g, before, i);
      assert before[..i] == order[..i];
    }
  }

  lemma SoundIsDistinct(g: Graph, order: seq<string>)
    requires Sound(g, order)
    ensures Distinct(order) && Elements(order) <= g.Keys
  {
    forall i, j | 0 <= i < j < |order| ensures order[i] != order[j] {
      SoundAt(g, order, j);
      assert order[..j][i] == order[i];
    }
    forall x | x in Elements(order) ensures x in g.Keys {
      var i :| 0 <= i < |order| && order[i] == x;
      SoundAt(g, order, i);
    }
  }

  /** A permutation of the ids with every dependency before its dependents. */
  predicate IsLoadOrder(g: Graph, order: seq<string>) {
    && Distinct(order) && Elements(order) == g.Keys
    && forall i :: 0 <= i < |order| ==> Elements(g[order[i]]) <= Elements(order[..i])
  }

  /** Every dependency of this manifest that was supplied is among these ids. */
  predicate Covered(manifests: seq<PluginManifest>, k: int, before: seq<string>)
    requires 0 <= k < |manifests|
  {
    forall d :: d in manifests[k].dependencies && d in Ids(manifests) ==> d in before
  }

  /** A load order in terms of the manifests: every supplied id once, after all its dependencies that were
      supplied too, where the last manifest of an id is the one that counts. */
  lemma {:induction false} LoadOrderMeans(manifests: seq<PluginManifest>, order: seq<string>)
    ensures IsLoadOrder(GraphOf(manifests), order) <==>
      && Distinct(order) && Elements(order) == (set k | 0 <= k < |manifests| :: manifests[k].id)
      && forall i, k :: 0 <= i < |order| && IsLast(manifests, k) && manifests[k].id == order[i] ==>
           Covered(manifests, k, order[..i])
  {
    var g := GraphOf(manifests);
    assert Ids(manifests) == (set k | 0 <= k < |manifests| :: manifests[k].id);
    forall i, k | 0 <= i < |order| && IsLast(manifests, k) && manifests[k].id == order[i]
      ensures order[i] in g && (Covered(manifests, k, order[..i]) <==> Elements(g[order[i]]) <= Elements(order[..i]))
    {
      CoveredInGraph(manifests, k, order[..i]);
    }
    hide IsLast, Ids, GraphOf, Covered;
    if Elements(order) == g.Keys {
      forall i | 0 <= i < |order|
        ensures exists k :: IsLast(manifests, k) && manifests[k].id == order[i]
      {
        assert order[i] in Elements(order);
        var k := SomeLast(manifests, order[i]);
      }
    }
  }

  lemma {:induction false} CoveredInGraph(manifests: seq<PluginManifest>, k: int, before: seq<string>)
    requires IsLast(manifests, k)
    ensures var g, id := GraphOf(manifests), manifests[k].id;
      id in g && (Covered(manifests, k, before) <==> Elements(g[id]) <= Elements(before))
  {
    LastManifestCounts(manifests, k);
    var kept := Among(manifests[k].dependencies, Ids(manifests));
    assert forall d :: d in Elements(kept) <==> d in kept;
    assert forall d :: d in Elements(before) <==> d in before;
  }

  // ---------- in-degrees ----------

  function Degree(g: Graph, x: string, done: set<string>): int
    requires x in g
  {
    |g[x]| - |Elements(g[x]) * done|
  }

  lemma {:induction false} DistinctCount<T>(s: seq<T>)
    ensures |Elements(s)| <= |s|
    ensures |Elements(s)| == |s| <==> Distinct(s)
  {
    if s == [] {
      assert Elements(s) == {};
    } else {
      var rest := s[..|s| - 1];
      var last := s[|s| - 1];
      DistinctCount(rest);
      assert s == rest + [last];
      assert Elements(s) == Elements(rest) + {last};
      if last in rest {
        assert Elements(s) == Elements(rest);
        var i :| 0 <= i < |rest| && rest[i] == last;
        assert s[i] == s[|s| - 1];
      } else {
        assert Distinct(s) <==> Distinct(rest) by {
          assert forall i :: 0 <= i < |rest| ==> s[i] == rest[i] && rest[i] != last;
        }
      }
    }
  }

  lemma SubsetSize<T>(a: set<T>, b: set<T>)
    requires a <= b
    ensures |a| <= |b| && (|a| == |b| ==> a == b)
  {
    assert b == a + (b - a);
  }

  /** The stored in-degree never goes below zero, and is zero exactly for the plugins that may go next. */
  lemma DegreeZeroIffReady(g: Graph, x: string, done: set<string>)
    requires x in g
    ensures Degree(g, x, done) >= 0
    ensures Degree(g, x, done) == 0 <==> Ready(g, x, done)
  {
    DistinctCount(g[x]);
    SubsetSize(Elements(g[x]) * done, Elements(g[x]));
    assert Elements(g[x]) * done == Elements(g[x]) <==> Elements(g[x]) <= done;
  }

  lemma DegreeDrops(g: Graph, x: string, done: set<string>, id: string)
    requires x in g && id !in done
    ensures Degree(g, x, done + {id}) == Degree(g, x, done) - (if id in g[x] then 1 else 0)
  {
    var e := Elements(g[x]);
    if id in g[x] {
      assert e * (done + {id}) == e * done + {id};
    } else {
      assert e * (done + {id}) == e * done;
    }
  }

  // ---------- exactly the doomed plugins remain ----------

  lemma {:induction false} PathDescends(g: Graph, order: seq<string>, p: seq<string>, i: nat) returns (j: nat)
    requires Sound(g, order) && IsPath(g, p) && i < |order| && order[i] == p[0]
    ensures j + |p| - 1 <= i && order[j] == p[|p| - 1]
    decreases |p|
  {
    if |p| == 1 {
      j := i;
    } else {
      SoundAt(g, order, i);
      assert p[1] in Elements(order[..i]);
      var k :| 0 <= k < i && order[..i][k] == p[1];
      SoundAt(g, order, k);
      assert IsPath(g, p[1..]);
      j := PathDescends(g, order, p[1..], k);
    }
  }

  lemma OrderedIsNotDoomed(g: Graph, order: seq<string>, i: nat)
    requires Sound(g, order) && i < |order|
    ensures !DependsOnStuck(g, order[i])
  {
    forall p | IsPath(g, p) && p[0] == order[i] ensures !Stuck(g, p[|p| - 1]) {
      var j := PathDescends(g, order, p, i);
      SoundIsDistinct(g, order);
      forall q | Joins(g, q, order[j], order[j]) ensures |q| == 1 {
        var k := PathDescends(g, order, q, j);
      }
      SoundAt(g, order, j);
    }
  }

  /** A path whose last element depends on an earlier one leads into a cycle. */
  lemma PathClosesCycle(g: Graph, p: seq<string>, i: nat)
    requires Closed(g) && IsPath(g, p) && i < |p| && p[|p| - 1] in g && p[i] in g[p[|p| - 1]]
    ensures DependsOnStuck(g, p[0])
  {
    var around := p[i..] + [p[i]];
    assert forall k :: 0 <= k < |around| - 1 ==> around[k] == p[i + k];
    assert Joins(g, around, p[i], p[i]) && |around| >= 2;
    assert Stuck(g, p[i]);
    var into := p[..i + 1];
    assert IsPath(g, into) && into[i] == p[i];
  }

  lemma ExtendPath(g: Graph, rest: set<string>, p: seq<string>, d: string) returns (longer: seq<string>)
    requires IsPath(g, p) && Distinct(p) && Elements(p) <= rest
    requires p[|p| - 1] in g && d in g[p[|p| - 1]] && d in rest && d !in p
    ensures longer == p + [d] && IsPath(g, longer) && Distinct(longer) && Elements(longer) <= rest
  {
    longer := p + [d];
    assert forall k :: 0 <= k < |p| ==> longer[k] == p[k];
  }

  lemma DistinctFits(p: seq<string>, rest: set<string>)
    requires Distinct(p) && Elements(p) <= rest
    ensures |p| <= |rest|
  {
    DistinctCount(p);
    SubsetSize(Elements(p), rest);
  }

  /** Following dependencies that cannot be finished either runs into a duplicate list or round a cycle. */
  lemma {:induction false} UnfinishedIsDoomed(g: Graph, rest: set<string>, p: seq<string>)
    requires Closed(g) && rest <= g.Keys
    requires forall x :: x in rest ==> !Ready(g, x, g.Keys - rest)
    requires IsPath(g, p) && Distinct(p) && Elements(p) <= rest
    ensures DependsOnStuck(g, p[0])
    decreases |rest| - |p|
  {
    DistinctFits(p, rest);
    var last := p[|p| - 1];
    assert last in Elements(p);
    if !Distinct(g[last]) {
      assert Stuck(g, last);
    } else {
      assert !(Elements(g[last]) <= g.Keys - rest);
      var d :| d in g[last] && d in rest;
      if d in p {
        var i :| 0 <= i < |p| && p[i] == d;
        PathClosesCycle(g, p, i);
      } else {
        var longer := ExtendPath(g, rest, p, d);
        DistinctFits(longer, rest);
        UnfinishedIsDoomed(g, rest, longer);
      }
    }
  }

  ghost function Doomed(g: Graph): set<string> {
    set x | x in g && DependsOnStuck(g, x)
  }

  /** When nothing outside a sound order is ready, the plugins outside it are exactly the doomed ones. */
  lemma RemainingIsDoomed(g: Graph, order: seq<string>)
    requires Closed(g) && Sound(g, order)
    requires forall x :: x in g && x !in order ==> !Ready(g, x, Elements(order))
    ensures Doomed(g) == g.Keys - Elements(order)
  {
    var rest := g.Keys - Elements(order);
    SoundIsDistinct(g, order);
    assert g.Keys - rest == Elements(order);
    forall x | x in g ensures x !in order <==> DependsOnStuck(g, x) {
      if x in order {
        var i :| 0 <= i < |order| && order[i] == x;
        OrderedIsNotDoomed(g, order, i);
      } else {
        UnfinishedIsDoomed(g, rest, [x]);
      }
    }
  }

  // ---------- when this is cycle detection ----------

  ghost function Blocked(g: Graph): set<string> {
    set x | x in g && DependsOnCycle(g, x)
  }

  ghost predicate HasCycle(g: Graph) {
    exists x :: x in g && OnCycle(g, x)
  }

  predicate HasRepetition(g: Graph) {
    exists y :: y in g && !Distinct(g[y])
  }

  ghost predicate RepetitionsAreBlocked(g: Graph) {
    forall y :: y in g && !Distinct(g[y]) ==> DependsOnCycle(g, y)
  }

  lemma PathStaysInside(g: Graph, p: seq<string>)
    requires Closed(g) && IsPath(g, p)
    ensures p[|p| - 1] in g
  {
    if |p| > 1 { assert p[|p| - 2 + 1] in g[p[|p| - 2]]; }
  }

  lemma JoinPaths(g: Graph, p: seq<string>, q: seq<string>)
    requires IsPath(g, p) && IsPath(g, q) && p[|p| - 1] == q[0]
    ensures IsPath(g, p + q[1..]) && (p + q[1..])[0] == p[0]
    ensures (p + q[1..])[|p + q[1..]| - 1] == q[|q| - 1]
  {
    var joined := p + q[1..];
    forall i | 0 <= i < |joined| - 1 ensures joined[i] in g && joined[i + 1] in g[joined[i]] {
      if i >= |p| - 1 { assert joined[i] == q[i - |p| + 1] && joined[i + 1] == q[i - |p| + 2]; }
    }
  }

  lemma BlockedIsDoomed(g: Graph)
    requires Closed(g)
    ensures Blocked(g) <= Doomed(g)
  {
    forall x | x in Blocked(g) ensures x in Doomed(g) {
      var p :| IsPath(g, p) && p[0] == x && OnCycle(g, p[|p| - 1]);
      PathStaysInside(g, p);
      assert Stuck(g, p[|p| - 1]);
    }
  }

  lemma RepetitionDooms(g: Graph, y: string)
    requires y in g && !Distinct(g[y])
    ensures y in Doomed(g)
  {
    assert IsPath(g, [y]) && Stuck(g, [y][0]);
  }

  lemma DoomedReachesCycle(g: Graph, x: string)
    requires Closed(g) && RepetitionsAreBlocked(g) && x in Doomed(g)
    ensures x in Blocked(g)
  {
    var p :| IsPath(g, p) && p[0] == x && Stuck(g, p[|p| - 1]);
    var z := p[|p| - 1];
    if !OnCycle(g, z) {
      var q :| IsPath(g, q) && q[0] == z && OnCycle(g, q[|q| - 1]);
      hide IsPath;
      JoinPaths(g, p, q);
    }
  }

  /** What remains is exactly what depends on a cycle if and only if every plugin with a repeated
      dependency does. */
  lemma RemainderIsExactIff(g: Graph)
    requires Closed(g)
    ensures Doomed(g) == Blocked(g) <==> RepetitionsAreBlocked(g)
  {
    BlockedIsDoomed(g);
    if Doomed(g) == Blocked(g) {
      forall y | y in g && !Distinct(g[y]) ensures DependsOnCycle(g, y) {
        RepetitionDooms(g, y);
      }
    } else if RepetitionsAreBlocked(g) {
      forall x | x in Doomed(g) ensures x in Blocked(g) { DoomedReachesCycle(g, x); }
    }
  }

  /** Something remains if and only if there is a cycle or a repeated dependency. */
  lemma RemainderExistsIff(g: Graph)
    requires Closed(g)
    ensures Doomed(g) != {} <==> HasCycle(g) || HasRepetition(g)
  {
    if x :| x in Doomed(g) {
      var p :| IsPath(g, p) && p[0] == x && Stuck(g, p[|p| - 1]);
    }
    if HasCycle(g) {
      var x :| x in g && OnCycle(g, x);
      assert IsPath(g, [x]) && Stuck(g, [x][0]);
      assert x in Doomed(g);
    } else if HasRepetition(g) {
      var y :| y in g && !Distinct(g[y]);
      RepetitionDooms(g, y);
    }
  }

  /** In particular, with duplicate-free lists a plugin is doomed exactly if it depends on a cycle. */
  lemma WithoutDuplicatesOnlyCyclesBlock(g: Graph, x: string)
    requires Closed(g) && forall y :: y in g ==> Distinct(g[y])
    ensures DependsOnStuck(g, x) <==> DependsOnCycle(g, x)
  {
    RemainderIsExactIff(g);
    assert x in Doomed(g) <==> x in Blocked(g);
  }
}
