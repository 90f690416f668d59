/** Connected components of a pipeline drawing (pikoci/pipelines.go, inside
    generateImage): union-find with path compression over node names, then one
    invisible edge between consecutive components. */
module UnionFind {

  datatype Edge = Edge(src: string, dst: string)

  // ----- connectivity, independent of the data structure

  ghost predicate Adjacent(edges: seq<Edge>, a: string, b: string) {
    Edge(a, b) in edges || Edge(b, a) in edges
  }

  ghost predicate Path(edges: seq<Edge>, w: seq<string>) {
    w != [] && forall i :: 0 <= i < |w| - 1 ==> Adjacent(edges, w[i], w[i + 1])
  }

  ghost predicate Connected(edges: seq<Edge>, a: string, b: string) {
    exists w :: Path(edges, w) && w[0] == a && w[|w| - 1] == b
  }

  lemma ConnectedSelf(edges: seq<Edge>, a: string)
    ensures Connected(edges, a, a)
  {
    assert Path(edges, [a]) && [a][0] == a;
  }

  lemma ConnectedEdge(edges: seq<Edge>, e: Edge)
    requires e in edges
    ensures Connected(edges, e.src, e.dst)
  {
    var w := [e.src, e.dst];
    assert Adjacent(edges, w[0], w[1]);
    assert Path(edges, w) && w[0] == e.src && w[|w| - 1] == e.dst;
  }

  lemma ConnectedBack(edges: seq<Edge>, a: string, b: string)
    requires Connected(edges, a, b)
    ensures Connected(edges, b, a)
  {
    var w :| Path(edges, w) && w[0] == a && w[|w| - 1] == b;
    var r := seq(|w|, i requires 0 <= i < |w| => w[|w| - 1 - i]);
    forall i | 0 <= i < |r| - 1 ensures Adjacent(edges, r[i], r[i + 1]) {
      var k := |w| - 2 - i;
      assert Adjacent(edges, w[k], w[k + 1]);
    }
    assert Path(edges, r) && r[0] == b && r[|r| - 1] == a;
  }

  lemma ConnectedJoin(edges: seq<Edge>, a: string, b: string, c: string)
    requires Connected(edges, a, b) && Connected(edges, b, c)
    ensures Connected(edges, a, c)
  {
    var u :| Path(edges, u) && u[0] == a && u[|u| - 1] == b;
    var v :| Path(edges, v) && v[0] == b && v[|v| - 1] == c;
    var w := u + v[1..];
    forall i | 0 <= i < |w| - 1 ensures Adjacent(edges, w[i], w[i + 1]) {
      if i < |u| - 1 { assert Adjacent(edges, u[i], u[i + 1]); }
      else { var k := i - |u| + 1; assert Adjacent(edges, v[k], v[k + 1]); }
    }
    assert Path(edges, w) && w[0] == a && w[|w| - 1] == c;
  }

  lemma ConnectedMore(edges: seq<Edge>, more: seq<Edge>, a: string, b: string)
    requires Connected(edges, a, b) && forall e :: e in edges ==> e in more
    ensures Connected(more, a, b)
  {
    var w :| Path(edges, w) && w[0] == a && w[|w| - 1] == b;
    forall i | 0 <= i < |w| - 1 ensures Adjacent(more, w[i], w[i + 1]) {
      assert Adjacent(edges, w[i], w[i + 1]);
    }
    assert Path(more, w);
  }

  /** A labelling that is constant along every edge is constant along every path. */
  lemma {:induction false} SameLabel(edges: seq<Edge>, mark: string -> string, a: string, b: string)
    requires Connected(edges, a, b) && forall e :: e in edges ==> mark(e.src) == mark(e.dst)
    ensures mark(a) == mark(b)
  {
    var w :| Path(edges, w) && w[0] == a && w[|w| - 1] == b;
    for i := 1 to |w|
      invariant mark(w[i - 1]) == mark(a)
    {
      assert Adjacent(edges, w[i - 1], w[i - 1 + 1]);
      assert Edge(w[i - 1], w[i]) in edges || Edge(w[i], w[i - 1]) in edges;
    }
  }

  // ----- the forest

  type Names = map<string, string>

  /** Parent pointers lead, along growing ranks, to the node's representative. */
  ghost predicate NodeOk(parent: Names, root: Names, rank: map<string, nat>, top: nat, x: string) {
    && x in parent && x in root && x in rank && parent[x] in parent && parent[x] in rank && parent[x] in root
    && root[x] in parent && parent[root[x]] == root[x]
    && root[parent[x]] == root[x] && rank[x] <= top
    && (parent[x] == x ==> root[x] == x)
    && (parent[x] != x ==> rank[x] < rank[parent[x]])
  }

  ghost predicate Inv(parent: Names, root: Names, rank: map<string, nat>, top: nat) {
    && parent.Keys == root.Keys == rank.Keys
    && forall x {:trigger NodeOk(parent, root, rank, top, x)} :: x in parent ==> NodeOk(parent, root, rank, top, x)
  }

  lemma AddKeeps(parent: Names, root: Names, rank: map<string, nat>, top: nat, x: string)
    requires Inv(parent, root, rank, top) && x !in parent
    ensures Inv(parent[x := x], root[x := x], rank[x := 0], top)
  {
    var p, r, k := parent[x := x], root[x := x], rank[x := 0];
    forall y | y in p ensures NodeOk(p, r, k, top, y) {
      if y != x { assert NodeOk(parent, root, rank, top, y); }
    }
  }

  lemma {:induction false} RootRanksAbove(parent: Names, root: Names, rank: map<string, nat>, top: nat, x: string)
    requires Inv(parent, root, rank, top) && x in parent
    ensures root[x] in rank && (parent[x] != x ==> rank[x] < rank[root[x]])
    decreases top - rank[x]
  {
    assert NodeOk(parent, root, rank, top, x);
    if parent[x] != x {
      assert NodeOk(parent, root, rank, top, parent[x]);
      RootRanksAbove(parent, root, rank, top, parent[x]);
    }
  }

  lemma CompressKeeps(parent: Names, root: Names, rank: map<string, nat>, top: nat, x: string)
    requires Inv(parent, root, rank, top) && x in parent && parent[x] != x
    ensures Inv(parent[x := root[x]], root, rank, top)
  {
    RootRanksAbove(parent, root, rank, top, x);
    var p := parent[x := root[x]];
    assert NodeOk(parent, root, rank, top, x) && NodeOk(parent, root, rank, top, root[x]);
    forall y | y in p ensures NodeOk(p, root, rank, top, y) { assert NodeOk(parent, root, rank, top, y); }
  }

  lemma LinkKeeps(parent: Names, root: Names, rank: map<string, nat>, top: nat, ra: string, rb: string)
    requires Inv(parent, root, rank, top) && ra in parent && rb in parent && ra != rb
    requires parent[ra] == ra && parent[rb] == rb
    ensures Inv(parent[ra := rb], Redirected(root, ra, rb), rank[rb := top + 1], top + 1)
  {
    assert NodeOk(parent, root, rank, top, ra) && NodeOk(parent, root, rank, top, rb);
    assert Redirected(root, ra, rb).Keys == root.Keys;
    hide NodeOk, Redirected;
    assert rank[rb := top + 1].Keys == rank.Keys && parent[ra := rb].Keys == parent.Keys;
    forall y | y in parent ensures NodeOk(parent[ra := rb], Redirected(root, ra, rb), rank[rb := top + 1], top + 1, y) {
      assert NodeOk(parent, root, rank, top, y);
      LinkedNode(parent, root, rank, top, ra, rb, y);
    }
  }

  lemma LinkedNode(parent: Names, root: Names, rank: map<string, nat>, top: nat, ra: string, rb: string, y: string)
    requires NodeOk(parent, root, rank, top, ra) && NodeOk(parent, root, rank, top, rb) &&
      NodeOk(parent, root, rank, top, y)
    requires ra != rb && parent[ra] == ra && parent[rb] == rb
    ensures NodeOk(parent[ra := rb], Redirected(root, ra, rb), rank[rb := top + 1], top + 1, y)
  {
  }

  class Forest {
    var parent: Names
    ghost var root: Names                 // the representative of each node's tree
    ghost var rank: map<string, nat>      // grows along parent pointers
    ghost var top: nat                    // no rank exceeds it

    constructor ()
      ensures Valid() && root == map[]
    {
      parent, root, rank, top := map[], map[], map[], 0;
    }

    ghost predicate Valid() reads this {
      Inv(parent, root, rank, top)
    }

    /** ufFind: answers the representative and only shortens the way to it. */
    method Find(x: string) returns (r: string)
      requires Valid()
      modifies this
      ensures Valid() && root == Seen(old(root), x) && r == root[x]
      ensures x in parent && r in parent && parent[r] == r
      ensures top == old(top) && (x in old(rank) ==> rank == old(rank) && parent.Keys == old(parent.Keys))
      decreases if x in parent && x in rank then top - rank[x] else top + 1
    {
      hide Inv;
      NodeFacts(parent, root, rank, top, x);
      if x !in parent {
        AddKeeps(parent, root, rank, top, x);
        parent, root, rank := parent[x := x], root[x := x], rank[x := 0];
      }
      NodeFacts(parent, root, rank, top, x);
      if parent[x] != x {
        var p := Find(parent[x]);
        NodeFacts(parent, root, rank, top, x);
        CompressKeeps(parent, root, rank, top, x);
        parent := parent[x := p];
      }
      r := parent[x];
    }

    /** ufUnion: merges the trees of a and b and no others. */
    method Union(a: string, b: string)
      requires Valid()
      modifies this
      ensures Valid() && root == Merged(Seen(Seen(old(root), a), b), a, b)
    {
      hide Inv, Redirected, Seen;
      var ra := Find(a);
      var rb := Find(b);
      RootFacts(parent, root, rank, top, a);
      RootFacts(parent, root, rank, top, b);
      if ra != rb {
        LinkKeeps(parent, root, rank, top, ra, rb);
        parent := parent[ra := rb];
        root, rank, top := Redirected(root, ra, rb), rank[rb := top + 1], top + 1;
      } else {
        RedirectedToItself(root, ra);
      }
    }
  }

  lemma RedirectedToItself(root: Names, r: string)
    ensures Redirected(root, r, r) == root
  {
  }

  lemma RootFacts(parent: Names, root: Names, rank: map<string, nat>, top: nat, x: string)
    requires Inv(parent, root, rank, top) && x in root
    ensures root[x] in parent && parent[root[x]] == root[x]
  {
    assert NodeOk(parent, root, rank, top, x);
  }

  lemma NodeFacts(parent: Names, root: Names, rank: map<string, nat>, top: nat, x: string)
    requires Inv(parent, root, rank, top)
    ensures parent.Keys == root.Keys == rank.Keys
    ensures x in parent ==> NodeOk(parent, root, rank, top, x) && NodeOk(parent, root, rank, top, parent[x])
  {
    if x in parent { assert NodeOk(parent, root, rank, top, x); }
  }

  ghost function Seen(root: Names, x: string): (r: Names)
    ensures x in r && r.Keys == root.Keys + {x}
    ensures forall y :: y in root ==> r[y] == root[y]
  {
    if x in root then root else root[x := x]
  }

  ghost function Redirected(root: Names, ra: string, rb: string): Names {
    map x | x in root :: if root[x] == ra then rb else root[x]
  }

  ghost function Merged(root: Names, a: string, b: string): Names
    requires a in root && b in root
  {
    Redirected(root, root[a], root[b])
  }

  // ----- what the forest says about the drawing

  ghost predicate Known(root: Names, edges: seq<Edge>) {
    && (forall e :: e in edges ==> e.src in root && e.dst in root)
    && (forall a :: a in root ==> root[a] in root && root[root[a]] == root[a])
  }

  /** Two nodes have one representative exactly when edges connect them. */
  ghost predicate Represents(root: Names, edges: seq<Edge>) {
    && Known(root, edges)
    && forall a, b :: a in root && b in root ==> (root[a] == root[b] <==> Connected(edges, a, b))
  }

  lemma NewNodeIsAlone(root: Names, edges: seq<Edge>, x: string)
    requires Represents(root, edges)
    ensures Represents(Seen(root, x), edges)
  {
    if x !in root {
      var r := Seen(root, x);
      ConnectedSelf(edges, x);
      forall a | a in root ensures !Connected(edges, a, x) && !Connected(edges, x, a) {
        if Connected(edges, a, x) || Connected(edges, x, a) {
          var mark := (y: string) => if y == x then "x" else "";
          if Connected(edges, a, x) { SameLabel(edges, mark, a, x); } else { SameLabel(edges, mark, x, a); }
        }
      }
    }
  }

  lemma EdgeMerges(root: Names, edges: seq<Edge>, e: Edge)
    requires Represents(root, edges) && e.src in root && e.dst in root
    ensures Represents(Merged(root, e.src, e.dst), edges + [e])
  {
    var r, more := Merged(root, e.src, e.dst), edges + [e];
    forall a, b | a in r && b in r && Connected(more, a, b) ensures r[a] == r[b] {
      var mark := (y: string) => if y in r then r[y] else "";
      MarkFollowsEdges(root, edges, e);
      SameLabel(more, mark, a, b);
    }
    forall a, b | a in r && b in r && r[a] == r[b] ensures Connected(more, a, b) {
      MergedAreConnected(root, edges, e, a, b);
    }
  }

  lemma MarkFollowsEdges(root: Names, edges: seq<Edge>, e: Edge)
    requires Represents(root, edges) && e.src in root && e.dst in root
    ensures var r := Merged(root, e.src, e.dst);
      forall f :: f in edges + [e] ==> f.src in r && f.dst in r && r[f.src] == r[f.dst]
  {
    forall f | f in edges ensures root[f.src] == root[f.dst] { ConnectedEdge(edges, f); }
  }

  lemma MergedAreConnected(root: Names, edges: seq<Edge>, e: Edge, a: string, b: string)
    requires Represents(root, edges) && e.src in root && e.dst in root && a in root && b in root
    requires Merged(root, e.src, e.dst)[a] == Merged(root, e.src, e.dst)[b]
    ensures Connected(edges + [e], a, b)
  {
    var more := edges + [e];
    assert e in more;
    ConnectedEdge(more, e);
    ConnectedBack(more, e.src, e.dst);
    if root[a] == root[b] {
      ConnectedMore(edges, more, a, b);
    } else if root[a] == root[e.src] {
      ConnectedMore(edges, more, a, e.src);
      ConnectedMore(edges, more, e.dst, b);
      ConnectedJoin(more, a, e.src, e.dst);
      ConnectedJoin(more, a, e.dst, b);
    } else {
      ConnectedMore(edges, more, a, e.dst);
      ConnectedMore(edges, more, e.src, b);
      ConnectedJoin(more, a, e.dst, e.src);
      ConnectedJoin(more, a, e.src, b);
    }
  }

  lemma EmptyRepresents()
    ensures Represents(map[], [])
  {
  }

  /** The union-find pass over the graph's nodes and edges. */
  method BuildForest(nodes: seq<string>, edges: seq<Edge>) returns (f: Forest)
    ensures fresh(f) && f.Valid() && Represents(f.root, edges)
    ensures forall n :: n in nodes ==> n in f.root
  {
    hide Represents, Merged, Seen;
    f := new Forest();
    EmptyRepresents();
    for i := 0 to |nodes|
      invariant fresh(f) && f.Valid() && Represents(f.root, [])
      invariant forall k :: 0 <= k < i ==> nodes[k] in f.root
    {
      NewNodeIsAlone(f.root, [], nodes[i]);
      var _ := f.Find(nodes[i]);
    }
    assert edges[..0] == [];
    for i := 0 to |edges|
      invariant fresh(f) && f.Valid() && Represents(f.root, edges[..i])
      invariant forall n :: n in nodes ==> n in f.root
    {
      var e := edges[i];
      NewNodeIsAlone(f.root, edges[..i], e.src);
      NewNodeIsAlone(Seen(f.root, e.src), edges[..i], e.dst);
      EdgeMerges(Seen(Seen(f.root, e.src), e.dst), edges[..i], e);
      MergedKeys(Seen(Seen(f.root, e.src), e.dst), e.src, e.dst);
      f.Union(e.src, e.dst);
      assert edges[..i + 1] == edges[..i] + [e];
    }
    assert edges[..|edges|] == edges;
  }

  lemma MergedKeys(root: Names, a: string, b: string)
    requires a in root && b in root
    ensures Merged(root, a, b).Keys == root.Keys
  {
  }
}
