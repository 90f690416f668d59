/** Dependencies between secret-backed variables (worker/secret_deps.go): the
    graph is built from placeholder strings, searched for cycles, and cut into
    layers that can be resolved one after the other. */
module SecretDeps {
  import opened Text
  import opened Collections

  const MAX_SECRET_CHAIN_DEPTH := 10

  type Graph = map<string, set<string>>

  /** Every variable mentioned is itself a variable of the graph. */
  ghost predicate Closed(g: Graph) {
    forall v :: v in g ==> g[v] <= g.Keys
  }

  /** A walk along dependency edges; a chain of variables. */
  ghost predicate Walk(g: Graph, w: seq<string>) {
    && (forall i :: 0 <= i < |w| ==> w[i] in g)
    && (forall i :: 0 <= i < |w| - 1 ==> w[i + 1] in g[w[i]])
  }

  ghost predicate ClosedWalk(g: Graph, w: seq<string>) {
    |w| >= 2 && Walk(g, w) && w[0] == w[|w| - 1]
  }

  ghost predicate Acyclic(g: Graph) {
    forall w :: !ClosedWalk(g, w)
  }

  // ----- a finishing order proves the absence of cycles

  /** Every variable of `order` depends only on variables before it. */
  ghost predicate DependsBackwards(g: Graph, order: seq<string>) {
    && (forall i :: 0 <= i < |order| ==> order[i] in g)
    && (forall i, d :: 0 <= i < |order| && d in g[order[i]] ==> d in order[..i])
  }

  ghost function FirstIndex(order: seq<string>, v: string): (i: nat)
    requires v in order
    ensures i < |order| && order[i] == v && forall k :: 0 <= k < i ==> order[k] != v
  {
    if order[0] == v then 0 else 1 + FirstIndex(order[1..], v)
  }

  lemma EdgeGoesBack(g: Graph, order: seq<string>, v: string, d: string)
    requires DependsBackwards(g, order) && v in order && d in g[v]
    ensures d in order && FirstIndex(order, d) < FirstIndex(order, v)
  {
    var i := FirstIndex(order, v);
    assert d in order[..i];
    var k :| 0 <= k < i && order[..i][k] == d;
    assert order[k] == d;
  }

  lemma {:induction false} WalkGoesBack(g: Graph, order: seq<string>, w: seq<string>)
    requires DependsBackwards(g, order) && Walk(g, w) && |w| >= 2 && w[0] in order
    ensures w[|w| - 1] in order && FirstIndex(order, w[|w| - 1]) < FirstIndex(order, w[0])
    decreases |w|
  {
    EdgeGoesBack(g, order, w[0], w[1]);
    if |w| > 2 {
      assert Walk(g, w[1..]) by {
        forall i | 0 <= i < |w[1..]| - 1 ensures w[1..][i + 1] in g[w[1..][i]] { assert w[i + 2] in g[w[i + 1]]; }
      }
      WalkGoesBack(g, order, w[1..]);
    }
  }

  lemma OrderedIsAcyclic(g: Graph, order: seq<string>)
    requires DependsBackwards(g, order) && forall v :: v in g ==> v in order
    ensures Acyclic(g)
  {
    forall w | ClosedWalk(g, w) ensures false { WalkGoesBack(g, order, w); }
  }

  // ----- three-colour depth-first search

  datatype Colour = InStack | Done

  /** The in-stack variables are exactly those on the path, which is a walk; the
      done ones depend only on variables done before them. */
  ghost predicate Inv(g: Graph, visited: map<string, Colour>, path: seq<string>, finished: seq<string>) {
    && Closed(g)
    && Walk(g, path) && Distinct(path)
    && DependsBackwards(g, finished)
    && (forall v :: v in path <==> v in visited && visited[v] == InStack)
    && (forall v :: v in finished <==> v in visited && visited[v] == Done)
  }

  lemma EnterKeeps(g: Graph, visited: map<string, Colour>, path: seq<string>, finished: seq<string>, node: string)
    requires Inv(g, visited, path, finished) && node in g && node !in visited
    requires path != [] ==> node in g[path[|path| - 1]]
    ensures Inv(g, visited[node := InStack], path + [node], finished)
  {
    assert node !in path && node !in finished;
  }

  lemma LeaveKeeps(g: Graph, visited: map<string, Colour>, path: seq<string>, finished: seq<string>, node: string)
    requires Inv(g, visited, path + [node], finished)
    requires node in g && forall d :: d in g[node] ==> d in finished
    ensures Inv(g, visited[node := Done], path, finished + [node])
  {
    var old', new' := path + [node], finished + [node];
    assert old'[|path|] == node && forall i :: 0 <= i < |path| ==> old'[i] == path[i];
    assert node in old' && node !in finished;
    forall v ensures v in path <==> v in visited && v != node && visited[v] == InStack {
      assert v in old' <==> v in path || v == node;
    }
    forall i, d | 0 <= i < |new'| && d in g[new'[i]] ensures d in new'[..i] {
      assert new'[..i] == finished[..i];
    }
    forall i | 0 <= i < |path| - 1 ensures path[i + 1] in g[path[i]] { assert old'[i + 1] in g[old'[i]]; }
  }

  /** The part of the path from `dep` on, closed by `dep`. */
  method CycleOnPath(g: Graph, path: seq<string>, dep: string) returns (cycle: seq<string>)
    requires Walk(g, path) && dep in path && dep in g[path[|path| - 1]]
    ensures ClosedWalk(g, cycle)
  {
    var start := 0;
    while path[start] != dep
      invariant 0 <= start < |path| && dep in path[start..]
      decreases |path| - start
    {
      start := start + 1;
    }
    cycle := path[start..] + [dep];
    ClosesHere(g, path, start, dep);
  }

  class CycleSearch {
    const deps: Graph
    var visited: map<string, Colour>   // an absent variable is unvisited
    var path: seq<string>
    ghost var finished: seq<string>    // the Done variables, in the order they were left

    constructor (deps: Graph)
      requires Closed(deps)
      ensures Valid() && this.deps == deps && visited == map[] && path == [] && finished == []
    {
      this.deps, visited, path, finished := deps, map[], [], [];
    }

    ghost predicate Valid() reads this {
      Inv(deps, visited, path, finished)
    }

    /** Explores `node`.  The answer is a real cycle, or none, and then `node` is
        finished and the stack is as it was. */
    method Dfs(node: string) returns (cycle: seq<string>)
      requires Valid() && node in deps && node !in visited
      requires path != [] ==> node in deps[path[|path| - 1]]
      modifies this
      ensures cycle != [] ==> ClosedWalk(deps, cycle)
      ensures cycle == [] ==> Valid() && path == old(path) && old(finished) <= finished && node in finished
      decreases deps.Keys - visited.Keys
    {
      hide Walk, DependsBackwards, Distinct;
      ghost var path0, finished0 := path, finished;
      EnterKeeps(deps, visited, path, finished, node);
      visited := visited[node := InStack];
      path := path + [node];
      var keys := SortedKeys(deps[node]);
      for i := 0 to |keys|
        invariant Valid() && path == path0 + [node] && finished0 <= finished
        invariant visited.Keys >= old(visited.Keys) + {node}
        invariant forall k :: 0 <= k < i ==> keys[k] in finished
      {
        var dep := keys[i];
        if dep in visited && visited[dep] == InStack {
          cycle := CycleOnPath(deps, path, dep);
          return;
        }
        if dep !in visited {
          cycle := Dfs(dep);
          if cycle != [] { return; }
        }
      }
      LeaveKeeps(deps, visited, path0, finished, node);
      path := path[..|path| - 1];
      visited := visited[node := Done];
      finished := finished + [node];
      cycle := [];
    }

    method DetectCycle() returns (cycle: seq<string>)
      requires Valid() && visited == map[] && path == []
      modifies this
      ensures cycle == [] ==> DependsBackwards(deps, finished) && forall v :: v in deps ==> v in finished
      ensures cycle != [] ==> ClosedWalk(deps, cycle)
    {
      var keys := SortedKeys(deps.Keys);
      for i := 0 to |keys|
        invariant Valid() && path == []
        invariant forall k :: 0 <= k < i ==> keys[k] in finished
      {
        if keys[i] !in visited {
          cycle := Dfs(keys[i]);
          if cycle != [] { return; }
        }
      }
      cycle := [];
    }
  }

  /** Reaching a variable that is still on the path closes a walk. */
  lemma ClosesHere(g: Graph, path: seq<string>, start: nat, dep: string)
    requires Walk(g, path) && start < |path| && path[start] == dep && dep in g[path[|path| - 1]]
    ensures ClosedWalk(g, path[start..] + [dep])
  {
    var w := path[start..] + [dep];
    forall i | 0 <= i < |w| - 1 ensures w[i + 1] in g[w[i]] {
      if i < |w| - 2 { assert path[start + i + 1] in g[path[start + i]]; }
    }
  }

  /** detectCycle: no answer exactly when the graph is acyclic, and any answer is
      a closed walk along dependencies.  The ghost result is the order in which
      the search left the variables. */
  method DetectCycle(g: Graph) returns (cycle: seq<string>, ghost order: seq<string>)
    requires Closed(g)
    ensures cycle == [] <==> Acyclic(g)
    ensures cycle != [] ==> ClosedWalk(g, cycle)
    ensures cycle == [] ==> DependsBackwards(g, order) && forall v :: v in g ==> v in order
  {
    var search := new CycleSearch(g);
    cycle := search.DetectCycle();
    order := search.finished;
    if cycle == [] { OrderedIsAcyclic(g, order); }
  }

  // ----- chains and layers

  ghost predicate ChainFrom(g: Graph, v: string, w: seq<string>) {
    w != [] && w[0] == v && Walk(g, w)
  }

  /** The longest chain that starts at `v` has `n` variables. */
  ghost predicate LongestChain(g: Graph, v: string, n: nat) {
    && (exists w :: ChainFrom(g, v, w) && |w| == n)
    && (forall w :: ChainFrom(g, v, w) ==> |w| <= n)
  }

  /** No chain from `v` has more than `n` variables, told by looking only at the
      next variable. */
  ghost predicate Bounded(g: Graph, v: string, n: nat)
    requires Closed(g) && v in g
    decreases n
  {
    n > 0 && forall d :: d in g[v] ==> Bounded(g, d, n - 1)
  }

  lemma {:induction false} ChainWithinBound(g: Graph, v: string, n: nat, w: seq<string>)
    requires Closed(g) && v in g && Bounded(g, v, n) && ChainFrom(g, v, w)
    ensures |w| <= n
    decreases n
  {
    if |w| > 1 {
      assert w[1] in g[w[0]];
      assert Walk(g, w[1..]) by {
        forall i | 0 <= i < |w[1..]| - 1 ensures w[1..][i + 1] in g[w[1..][i]] { assert w[i + 2] in g[w[i + 1]]; }
      }
      ChainWithinBound(g, w[1], n - 1, w[1..]);
    }
  }

  lemma {:induction false} LongerChain(g: Graph, v: string, n: nat) returns (w: seq<string>)
    requires Closed(g) && v in g && !Bounded(g, v, n)
    ensures ChainFrom(g, v, w) && |w| == n + 1
    decreases n
  {
    if n == 0 { return [v]; }
    var d :| d in g[v] && !Bounded(g, d, n - 1);
    var t := LongerChain(g, d, n - 1);
    w := [v] + t;
    forall i | 0 <= i < |w| - 1 ensures w[i + 1] in g[w[i]] {
      if i > 0 { assert t[i - 1 + 1] in g[t[i - 1]]; }
    }
  }

  lemma {:induction false} BoundGrows(g: Graph, v: string, n: nat)
    requires Closed(g) && v in g && Bounded(g, v, n)
    ensures Bounded(g, v, n + 1)
    decreases n
  {
    forall d | d in g[v] ensures Bounded(g, d, n) { BoundGrows(g, d, n - 1); }
  }

  lemma LongestIs(g: Graph, v: string, n: nat)
    requires Closed(g) && v in g
    ensures LongestChain(g, v, n + 1) <==> Bounded(g, v, n + 1) && !Bounded(g, v, n)
  {
    if Bounded(g, v, n + 1) && !Bounded(g, v, n) {
      var w := LongerChain(g, v, n);
      forall w' | ChainFrom(g, v, w') ensures |w'| <= n + 1 { ChainWithinBound(g, v, n + 1, w'); }
    } else if !Bounded(g, v, n + 1) {
      var w := LongerChain(g, v, n + 1);
      assert ChainFrom(g, v, w);
    } else {
      forall w' | ChainFrom(g, v, w') ensures |w'| <= n { ChainWithinBound(g, v, n, w'); }
    }
  }

  /** Layer i holds the variables whose longest dependency chain has i + 1 variables. */
  ghost predicate LayeredByChain(g: Graph, layers: seq<seq<string>>) {
    forall i :: 0 <= i < |layers| ==>
      && layers[i] != [] && Sorted(layers[i])
      && forall v :: v in layers[i] <==> v in g && LongestChain(g, v, i + 1)
  }

  ghost predicate CoveredOnce(g: Graph, layers: seq<seq<string>>) {
    && (forall v :: v in g ==> exists i :: 0 <= i < |layers| && v in layers[i])
    && (forall i, j, v :: 0 <= i < j < |layers| && v in layers[i] ==> v !in layers[j])
  }

  /** Resolving the layers in order finds every dependency already resolved. */
  ghost predicate DependsOnEarlier(g: Graph, layers: seq<seq<string>>) {
    forall j, v, d :: 0 <= j < |layers| && v in layers[j] && v in g && d in g[v] ==>
      exists i :: 0 <= i < j && d in layers[i]
  }

  ghost predicate NoChainLongerThan(g: Graph, n: nat) {
    forall w :: Walk(g, w) ==> |w| <= n
  }

  lemma BoundedEverywhere(g: Graph, n: nat)
    requires Closed(g)
    ensures (forall v :: v in g ==> Bounded(g, v, n)) <==> NoChainLongerThan(g, n)
  {
    if forall v :: v in g ==> Bounded(g, v, n) {
      forall w | Walk(g, w) ensures |w| <= n {
        if w != [] { ChainWithinBound(g, w[0], n, w); }
      }
    } else {
      var v :| v in g && !Bounded(g, v, n);
      var w := LongerChain(g, v, n);
      assert Walk(g, w);
    }
  }

  datatype SortResult =
    | Layers(layers: seq<seq<string>>)
    | Circular(cycle: seq<string>)
    | TooDeep
    | NoProgress

  /** Some remaining variable has all its dependencies resolved: the one the
      search left first. */
  lemma SomeoneIsReady(g: Graph, order: seq<string>, remaining: set<string>)
    requires Closed(g) && DependsBackwards(g, order) && forall v :: v in g ==> v in order
    requires remaining != {} && remaining <= g.Keys
    ensures exists v :: v in remaining && g[v] !! remaining
  {
    var v :| v in remaining;
    assert order[FirstIndex(order, v)] == v;
    var i: nat := 0;
    while order[i] !in remaining
      invariant i <= FirstIndex(order, v)
      invariant forall k :: 0 <= k < i ==> order[k] !in remaining
      decreases |order| - i
    {
      i := i + 1;
    }
    assert forall d :: d in g[order[i]] ==> d in order[..i];
  }

  /** All variables with a chain bound of `k`. */
  ghost function Level(g: Graph, k: nat): set<string>
    requires Closed(g)
  {
    set v | v in g && Bounded(g, v, k)
  }

  /** One layer: what is bounded by k + 1 but not by k. */
  lemma NextLevel(g: Graph, k: nat, ready: set<string>)
    requires Closed(g)
    requires ready == set v | v in g && v !in Level(g, k) && g[v] <= Level(g, k)
    ensures Level(g, k + 1) == Level(g, k) + ready
    ensures forall v :: v in ready <==> v in g && LongestChain(g, v, k + 1)
  {
    forall v | v in g ensures Bounded(g, v, k + 1) <==> g[v] <= Level(g, k) {}
    forall v | v in g && Bounded(g, v, k) ensures Bounded(g, v, k + 1) { BoundGrows(g, v, k); }
    forall v | v in g ensures LongestChain(g, v, k + 1) <==> v in Level(g, k + 1) && v !in Level(g, k) {
      LongestIs(g, v, k);
    }
  }

  lemma {:induction false} WalkLowersBound(g: Graph, w: seq<string>, n: nat)
    requires Closed(g) && w != [] && Walk(g, w) && Bounded(g, w[0], n)
    ensures n >= |w| && Bounded(g, w[|w| - 1], n - |w| + 1)
    decreases |w|
  {
    if |w| > 1 {
      assert w[1] in g[w[0]];
      assert Walk(g, w[1..]) by {
        forall i | 0 <= i < |w[1..]| - 1 ensures w[1..][i + 1] in g[w[1..][i]] { assert w[i + 2] in g[w[i + 1]]; }
      }
      WalkLowersBound(g, w[1..], n - 1);
    }
  }

  lemma {:induction false} CycleIsUnbounded(g: Graph, w: seq<string>, n: nat)
    requires Closed(g) && ClosedWalk(g, w)
    ensures !Bounded(g, w[0], n)
    decreases n
  {
    if Bounded(g, w[0], n) {
      WalkLowersBound(g, w, n);
      CycleIsUnbounded(g, w, n - |w| + 1);
    }
  }

  lemma LevelOf(g: Graph, v: string, n: nat) returns (i: nat)
    requires Closed(g) && v in g && Bounded(g, v, n)
    ensures i < n && LongestChain(g, v, i + 1)
  {
    i := n - 1;
    while Bounded(g, v, i)
      invariant i < n && Bounded(g, v, i + 1)
      decreases i
    {
      i := i - 1;
    }
    LongestIs(g, v, i);
  }

  /** Layers that reach every variable are the answer. */
  lemma SortIsRight(g: Graph, layers: seq<seq<string>>)
    requires Closed(g) && LayeredByChain(g, layers) && Level(g, |layers|) == g.Keys
    ensures CoveredOnce(g, layers) && DependsOnEarlier(g, layers) && NoChainLongerThan(g, |layers|)
  {
    assert forall v :: v in g ==> v in Level(g, |layers|);
    BoundedEverywhere(g, |layers|);
    hide Sorted;
    forall v | v in g ensures exists i :: 0 <= i < |layers| && v in layers[i] {
      var i := LevelOf(g, v, |layers|);
      assert v in layers[i];
    }
    forall i, j, v | 0 <= i < j < |layers| && v in layers[i] ensures v !in layers[j] {
      assert LongestChain(g, v, i + 1);
      var w :| ChainFrom(g, v, w) && |w| == i + 1;
      assert LongestChain(g, v, j + 1) ==> exists w' :: ChainFrom(g, v, w') && |w'| == j + 1;
    }
    forall j, v, d | 0 <= j < |layers| && v in layers[j] && v in g && d in g[v]
      ensures exists i :: 0 <= i < j && d in layers[i]
    {
      LongestIs(g, v, j);
      var i := LevelOf(g, d, j);
      assert d in layers[i];
    }
  }

  lemma LayerAdded(g: Graph, layers: seq<seq<string>>, ready: set<string>, layer: seq<string>)
    requires Closed(g) && LayeredByChain(g, layers) && ready != {}
    requires ready == set v | v in g && v !in Level(g, |layers|) && g[v] <= Level(g, |layers|)
    requires Sorted(layer) && forall v :: v in layer <==> v in ready
    ensures LayeredByChain(g, layers + [layer]) && Level(g, |layers| + 1) == Level(g, |layers|) + ready
  {
    hide Level, Sorted, LongestChain;
    NextLevel(g, |layers|, ready);
    var v :| v in ready;
    assert v in layer;
  }

  lemma DeepWhenLeft(g: Graph, n: nat)
    requires Closed(g) && Level(g, n) != g.Keys
    ensures !NoChainLongerThan(g, n)
  {
    BoundedEverywhere(g, n);
  }

  lemma CircularIsDeep(g: Graph, cycle: seq<string>, n: nat)
    requires Closed(g) && ClosedWalk(g, cycle)
    ensures !NoChainLongerThan(g, n)
  {
    CycleIsUnbounded(g, cycle, n);
    BoundedEverywhere(g, n);
  }

  /** The variables whose dependencies are all resolved. */
  method Ready(remaining: Graph, resolved: set<string>) returns (ready: set<string>)
    ensures ready == set v | v in remaining && remaining[v] <= resolved
  {
    ready := {};
    var todo := remaining.Keys;
    while todo != {}
      invariant todo <= remaining.Keys
      invariant ready == set v | v in remaining && v !in todo && remaining[v] <= resolved
    {
      var v :| v in todo;
      todo := todo - {v};
      if remaining[v] <= resolved { ready := ready + {v}; }
    }
  }

  method TopologicalSort(g: Graph) returns (r: SortResult)
    requires Closed(g)
    ensures r != NoProgress
    ensures r.Circular? <==> !Acyclic(g)
    ensures r.Circular? ==> ClosedWalk(g, r.cycle)
    ensures r.Layers? <==> NoChainLongerThan(g, 10)
    ensures r.Layers? ==>
      LayeredByChain(g, r.layers) && CoveredOnce(g, r.layers) && DependsOnEarlier(g, r.layers)
  {
    hide Level, Acyclic, ClosedWalk, NoChainLongerThan, DependsBackwards, LayeredByChain, CoveredOnce,
      DependsOnEarlier, Sorted;
    var cycle, order := DetectCycle(g);
    if cycle != [] {
      CircularIsDeep(g, cycle, MAX_SECRET_CHAIN_DEPTH);
      return Circular(cycle);
    }
    var remaining := g;
    var layers: seq<seq<string>> := [];
    var resolved: set<string> := {};
    NothingAtLevelZero(g);
    while remaining != map[]
      invariant resolved == Level(g, |layers|) && |layers| <= MAX_SECRET_CHAIN_DEPTH && resolved <= g.Keys
      invariant remaining.Keys == g.Keys - resolved
      invariant forall v :: v in remaining ==> remaining[v] == g[v]
      invariant LayeredByChain(g, layers)
      decreases remaining.Keys
    {
      ghost var someone :| someone in remaining;
      if |layers| >= MAX_SECRET_CHAIN_DEPTH {
        DeepWhenLeft(g, |layers|);
        return TooDeep;
      }
      var ready := Ready(remaining, resolved);
      SomeoneIsReady(g, order, remaining.Keys);
      if ready == {} { return NoProgress; }
      var layer := SortedKeys(ready);
      LayerAdded(g, layers, ready, layer);
      layers := layers + [layer];
      resolved := resolved + ready;
      remaining := remaining - ready;
    }
    assert g.Keys - resolved == remaining.Keys == {};
    assert forall v :: v in g.Keys ==> v in resolved;
    assert resolved == g.Keys;
    SortIsRight(g, layers);
    WithinDepth(g, |layers|, MAX_SECRET_CHAIN_DEPTH);
    return Layers(layers);
  }

  lemma NothingAtLevelZero(g: Graph)
    requires Closed(g)
    ensures Level(g, 0) == {} && LayeredByChain(g, [])
  {
  }

  lemma WithinDepth(g: Graph, n: nat, m: nat)
    requires NoChainLongerThan(g, n) && n <= m
    ensures NoChainLongerThan(g, m)
  {
  }
}
