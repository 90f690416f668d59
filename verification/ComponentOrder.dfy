/** The walk over the drawing's items that orders its components and ties each
    to the next with an invisible edge (pikoci/pipelines.go:1288-1332). */
module ComponentOrder {
  import opened UnionFind

  datatype Item = Single(name: string) | Subgraph(children: set<string>)

  datatype Comp = Comp(root: string, first: string, last: string)

  /** An item stands for itself or for any of its children; "" when it has none. */
  ghost predicate StandsFor(item: Item, rep: string) {
    match item
    case Single(n) => rep == n
    case Subgraph(cs) => if cs == {} then rep == "" else rep in cs
  }

  method Representative(item: Item) returns (rep: string)
    ensures StandsFor(item, rep)
  {
    match item {
      case Single(n) => rep := n;
      case Subgraph(cs) => if cs == {} { rep := ""; } else { rep :| rep in cs; }
    }
  }

  /** Component entries as the walk over `reps` leaves them: `firstAt` and `lastAt`
      are the places where each component was first and last met. */
  ghost predicate Met(root: Names, reps: seq<string>, comps: seq<Comp>, firstAt: seq<nat>, lastAt: seq<nat>) {
    && |comps| == |firstAt| == |lastAt|
    && (forall i :: 0 <= i < |comps| ==> EntryOk(root, reps, comps[i], firstAt[i], lastAt[i]))
    && Increasing(firstAt) && ApartRoots(comps)
    && (forall r :: r in reps && r != "" ==> HasEntry(root, comps, r))
  }

  ghost predicate Increasing(at: seq<nat>) {
    forall i, j :: 0 <= i < j < |at| ==> at[i] < at[j]
  }

  ghost predicate ApartRoots(comps: seq<Comp>) {
    forall i, j :: 0 <= i < j < |comps| ==> comps[i].root != comps[j].root
  }

  ghost predicate HasEntry(root: Names, comps: seq<Comp>, rep: string) {
    rep in root && exists i :: 0 <= i < |comps| && comps[i].root == root[rep]
  }

  ghost predicate EntryOk(root: Names, reps: seq<string>, c: Comp, f: nat, l: nat) {
    && f <= l < |reps| && reps[f] == c.first != "" && reps[l] == c.last != ""
    && c.first in root && c.last in root && root[c.first] == root[c.last] == c.root
    && forall p :: 0 <= p < |reps| && reps[p] != "" && reps[p] in root && root[reps[p]] == c.root ==> f <= p <= l
  }

  lemma RootGrows(root: Names, x: string, reps: seq<string>, comps: seq<Comp>, firstAt: seq<nat>, lastAt: seq<nat>)
    requires Met(root, reps, comps, firstAt, lastAt)
    ensures Met(Seen(root, x), reps, comps, firstAt, lastAt)
  {
    var r := Seen(root, x);
    forall i | 0 <= i < |comps| ensures EntryOk(r, reps, comps[i], firstAt[i], lastAt[i]) {
      assert EntryOk(root, reps, comps[i], firstAt[i], lastAt[i]);
      forall p | 0 <= p < |reps| && reps[p] != "" ensures reps[p] in root { assert HasEntry(root, comps, reps[p]); }
    }
    forall rep | rep in reps && rep != "" ensures HasEntry(r, comps, rep) { assert HasEntry(root, comps, rep); }
  }

  /** What one more representative does to one entry. */
  lemma EntryExtends(root: Names, reps: seq<string>, c: Comp, f: nat, l: nat, rep: string)
    requires EntryOk(root, reps, c, f, l) && (rep != "" ==> rep in root)
    ensures if rep != "" && root[rep] == c.root then EntryOk(root, reps + [rep], c.(last := rep), f, |reps|)
            else EntryOk(root, reps + [rep], c, f, l)
  {
    var rs := reps + [rep];
    assert forall p :: 0 <= p < |reps| ==> rs[p] == reps[p];
  }

  lemma SkipKeeps(root: Names, reps: seq<string>, comps: seq<Comp>, firstAt: seq<nat>, lastAt: seq<nat>)
    requires Met(root, reps, comps, firstAt, lastAt)
    ensures Met(root, reps + [""], comps, firstAt, lastAt)
  {
    hide EntryOk, HasEntry;
    forall i | 0 <= i < |comps| ensures EntryOk(root, reps + [""], comps[i], firstAt[i], lastAt[i]) {
      EntryExtends(root, reps, comps[i], firstAt[i], lastAt[i], "");
    }
  }

  lemma ExtendKeeps(root: Names, reps: seq<string>, comps: seq<Comp>, firstAt: seq<nat>, lastAt: seq<nat>,
                    rep: string, i: nat)
    requires Met(root, reps, comps, firstAt, lastAt) && rep != "" && rep in root
    requires i < |comps| && comps[i].root == root[rep]
    ensures Met(root, reps + [rep], comps[i := comps[i].(last := rep)], firstAt, lastAt[i := |reps|])
  {
    hide EntryOk, HasEntry;
    var rs, cs, ls := reps + [rep], comps[i := comps[i].(last := rep)], lastAt[i := |reps|];
    forall j | 0 <= j < |cs| ensures EntryOk(root, rs, cs[j], firstAt[j], ls[j]) {
      EntryExtends(root, reps, comps[j], firstAt[j], lastAt[j], rep);
    }
    forall r | r in rs && r != "" ensures HasEntry(root, cs, r) {
      if r == rep { EntryFound(root, cs, r, i); } else { EntryStays(root, comps, cs, r); }
    }
  }

  lemma EntryFound(root: Names, comps: seq<Comp>, rep: string, i: nat)
    requires i < |comps| && rep in root && comps[i].root == root[rep]
    ensures HasEntry(root, comps, rep)
  {
  }

  lemma EntryStays(root: Names, comps: seq<Comp>, more: seq<Comp>, rep: string)
    requires HasEntry(root, comps, rep) && |comps| <= |more|
    requires forall j :: 0 <= j < |comps| ==> more[j].root == comps[j].root
    ensures HasEntry(root, more, rep)
  {
    var j :| 0 <= j < |comps| && comps[j].root == root[rep];
    assert more[j].root == root[rep];
  }

  lemma OpenKeeps(root: Names, reps: seq<string>, comps: seq<Comp>, firstAt: seq<nat>, lastAt: seq<nat>, rep: string)
    requires Met(root, reps, comps, firstAt, lastAt) && rep != "" && rep in root
    requires forall i :: 0 <= i < |comps| ==> comps[i].root != root[rep]
    ensures Met(root, reps + [rep], comps + [Comp(root[rep], rep, rep)], firstAt + [|reps|], lastAt + [|reps|])
  {
    hide HasEntry;
    var rs, cs := reps + [rep], comps + [Comp(root[rep], rep, rep)];
    var fs, ls := firstAt + [|reps|], lastAt + [|reps|];
    forall j | 0 <= j < |comps| ensures EntryOk(root, rs, comps[j], firstAt[j], lastAt[j]) && firstAt[j] < |reps| {
      EntryExtends(root, reps, comps[j], firstAt[j], lastAt[j], rep);
    }
    NewEntry(root, reps, comps, rep);
    forall r | r in rs && r != "" ensures HasEntry(root, cs, r) {
      if r == rep { EntryFound(root, cs, r, |comps|); } else { EntryStays(root, comps, cs, r); }
    }
  }

  lemma NewEntry(root: Names, reps: seq<string>, comps: seq<Comp>, rep: string)
    requires rep != "" && rep in root && forall r :: r in reps && r != "" ==> HasEntry(root, comps, r)
    requires forall i :: 0 <= i < |comps| ==> comps[i].root != root[rep]
    ensures EntryOk(root, reps + [rep], Comp(root[rep], rep, rep), |reps|, |reps|)
  {
    var rs := reps + [rep];
    forall p | 0 <= p < |reps| && reps[p] != "" ensures reps[p] in root && root[reps[p]] != root[rep] {
      assert HasEntry(root, comps, reps[p]);
    }
    assert forall p :: 0 <= p < |reps| ==> rs[p] == reps[p];
  }

  /** compByRoot finds the entry of a root. */
  ghost predicate Looks(byRoot: map<string, nat>, comps: seq<Comp>) {
    && (forall r :: r in byRoot ==> byRoot[r] < |comps| && comps[byRoot[r]].root == r)
    && (forall i :: 0 <= i < |comps| ==> comps[i].root in byRoot)
  }

  /** What the ordering promises, in terms of the drawing alone. */
  ghost predicate Ordered(edges: seq<Edge>, reps: seq<string>, comps: seq<Comp>) {
    && (forall i :: 0 <= i < |comps| ==>
          comps[i].first in reps && comps[i].last in reps && Connected(edges, comps[i].first, comps[i].last))
    && (forall i, j :: 0 <= i < j < |comps| ==> !Connected(edges, comps[i].first, comps[j].first))
    && (forall r :: r in reps && r != "" ==> exists i :: 0 <= i < |comps| && Connected(edges, comps[i].first, r))
  }

  method OrderComponents(nodes: seq<string>, edges: seq<Edge>, items: seq<Item>)
    returns (comps: seq<Comp>, ghost reps: seq<string>, ghost root: Names, ghost firstAt: seq<nat>,
             ghost lastAt: seq<nat>)
    ensures |reps| == |items| && forall k :: 0 <= k < |items| ==> StandsFor(items[k], reps[k])
    ensures Represents(root, edges) && Met(root, reps, comps, firstAt, lastAt)
    ensures Ordered(edges, reps, comps)
  {
    hide Met, Represents, Seen, Ordered, Inv, StandsFor;
    var f := BuildForest(nodes, edges);
    comps, reps, firstAt, lastAt := [], [], [], [];
    var byRoot: map<string, nat> := map[];
    NothingMet(f.root);
    for k := 0 to |items|
      invariant fresh(f) && f.Valid() && Represents(f.root, edges)
      invariant |reps| == k && forall j :: 0 <= j < k ==> StandsFor(items[j], reps[j])
      invariant Met(f.root, reps, comps, firstAt, lastAt) && |firstAt| == |lastAt| == |comps|
      invariant Looks(byRoot, comps)
    {
      var rep := Representative(items[k]);
      if rep == "" {
        SkipKeeps(f.root, reps, comps, firstAt, lastAt);
        reps := reps + [""];
      } else {
        NewNodeIsAlone(f.root, edges, rep);
        RootGrows(f.root, rep, reps, comps, firstAt, lastAt);
        var r := f.Find(rep);
        if r in byRoot {
          var i := byRoot[r];
          ExtendKeeps(f.root, reps, comps, firstAt, lastAt, rep, i);
          lastAt := lastAt[i := |reps|];
          comps := comps[i := comps[i].(last := rep)];
        } else {
          OpenKeeps(f.root, reps, comps, firstAt, lastAt, rep);
          firstAt, lastAt := firstAt + [|reps|], lastAt + [|reps|];
          byRoot := byRoot[r := |comps|];
          comps := comps + [Comp(r, rep, rep)];
        }
        reps := reps + [rep];
      }
    }
    root := f.root;
    MetIsOrdered(root, edges, reps, comps, firstAt, lastAt);
  }

  lemma NothingMet(root: Names)
    ensures Met(root, [], [], [], [])
  {
  }

  lemma MetIsOrdered(root: Names, edges: seq<Edge>, reps: seq<string>, comps: seq<Comp>, firstAt: seq<nat>,
                     lastAt: seq<nat>)
    requires Represents(root, edges) && Met(root, reps, comps, firstAt, lastAt)
    ensures Ordered(edges, reps, comps)
  {
    hide Connected;
    forall i | 0 <= i < |comps|
      ensures comps[i].first in reps && comps[i].last in reps && Connected(edges, comps[i].first, comps[i].last)
    {
      assert EntryOk(root, reps, comps[i], firstAt[i], lastAt[i]);
    }
    forall i, j | 0 <= i < j < |comps| ensures !Connected(edges, comps[i].first, comps[j].first) {
      assert EntryOk(root, reps, comps[i], firstAt[i], lastAt[i]) &&
        EntryOk(root, reps, comps[j], firstAt[j], lastAt[j]);
    }
    forall r | r in reps && r != "" ensures exists i :: 0 <= i < |comps| && Connected(edges, comps[i].first, r) {
      assert HasEntry(root, comps, r);
      var i :| 0 <= i < |comps| && comps[i].root == root[r];
      assert EntryOk(root, reps, comps[i], firstAt[i], lastAt[i]);
      assert Connected(edges, comps[i].first, r);
    }
  }

  // ----- the invisible edges

  ghost function Ties(comps: seq<Comp>): (t: seq<Edge>)
    ensures |t| == if comps == [] then 0 else |comps| - 1
  {
    if |comps| <= 1 then [] else Ties(comps[..|comps| - 1]) + [Edge(comps[|comps| - 2].last, comps[|comps| - 1].first)]
  }

  method AddTies(comps: seq<Comp>) returns (ties: seq<Edge>)
    ensures ties == Ties(comps)
  {
    ties := [];
    if comps == [] { return; }
    for i := 1 to |comps|
      invariant ties == Ties(comps[..i])
    {
      assert comps[..i + 1][..i] == comps[..i];
      ties := ties + [Edge(comps[i - 1].last, comps[i].first)];
    }
    assert comps[..|comps|] == comps;
  }

  lemma {:induction false} TieIs(comps: seq<Comp>, k: nat)
    requires k + 1 < |comps|
    ensures Ties(comps)[k] == Edge(comps[k].last, comps[k + 1].first)
    ensures Ties(comps)[..k] == Ties(comps[..k + 1])
    decreases |comps|
  {
    var init := comps[..|comps| - 1];
    if k + 1 == |comps| - 1 {
      assert Ties(comps)[..k] == Ties(init);
    } else {
      TieIs(init, k);
      assert Ties(comps)[..k] == Ties(init)[..k] && init[..k + 1] == comps[..k + 1];
    }
  }

  lemma OrderedAt(edges: seq<Edge>, reps: seq<string>, comps: seq<Comp>, i: nat)
    requires Ordered(edges, reps, comps) && i < |comps|
    ensures Connected(edges, comps[i].first, comps[i].last)
  {
  }

  /** All components up to number k look alike, every other one is on its own. */
  ghost function MarkOf(root: Names, comps: seq<Comp>, k: nat, x: string): string
    requires k < |comps| && forall i :: 0 <= i < |comps| ==> comps[i].first in root
  {
    if x !in root then x
    else if exists i :: 0 <= i <= k && root[comps[i].first] == root[x] then "" else "c" + root[x]
  }

  lemma TieKeepsMark(edges: seq<Edge>, reps: seq<string>, comps: seq<Comp>, root: Names, k: nat, t: nat)
    requires Represents(root, edges) && Ordered(edges, reps, comps) && t < k < |comps|
    requires forall i :: 0 <= i < |comps| ==> comps[i].first in root && comps[i].last in root
    ensures MarkOf(root, comps, k, comps[t].last) == "" == MarkOf(root, comps, k, comps[t + 1].first)
  {
    hide Connected;
    OrderedAt(edges, reps, comps, t);
    assert root[comps[t].first] == root[comps[t].last];
    assert root[comps[t + 1].first] == root[comps[t + 1].first];
  }

  lemma LaterIsMarkedApart(edges: seq<Edge>, reps: seq<string>, comps: seq<Comp>, root: Names, k: nat)
    requires Represents(root, edges) && Ordered(edges, reps, comps) && k + 1 < |comps|
    requires forall i :: 0 <= i < |comps| ==> comps[i].first in root && comps[i].last in root
    ensures MarkOf(root, comps, k, comps[k].last) == "" != MarkOf(root, comps, k, comps[k + 1].first)
  {
    hide Connected;
    OrderedAt(edges, reps, comps, k);
    assert root[comps[k].first] == root[comps[k].last];
    forall i | 0 <= i <= k ensures root[comps[i].first] != root[comps[k + 1].first] {
      assert !Connected(edges, comps[i].first, comps[k + 1].first);
    }
  }

  /** Each invisible edge joins two components that were still apart, so no cycle
      appears. */
  lemma TiesJoinApartComponents(edges: seq<Edge>, reps: seq<string>, comps: seq<Comp>, root: Names, k: nat)
    requires Represents(root, edges) && Ordered(edges, reps, comps) && k + 1 < |comps|
    requires forall i :: 0 <= i < |comps| ==> comps[i].first in root && comps[i].last in root
    ensures !Connected(edges + Ties(comps)[..k], Ties(comps)[k].src, Ties(comps)[k].dst)
  {
    hide Connected, Ties, Ordered;
    TieIs(comps, k);
    var more := edges + Ties(comps)[..k];
    var mark := (x: string) => MarkOf(root, comps, k, x);
    forall e | e in more ensures mark(e.src) == mark(e.dst) {
      if e in edges { ConnectedEdge(edges, e); }
      else {
        var t :| 0 <= t < k && Ties(comps)[t] == e;
        TieIs(comps, t);
        TieKeepsMark(edges, reps, comps, root, k, t);
      }
    }
    LaterIsMarkedApart(edges, reps, comps, root, k);
    if Connected(more, comps[k].last, comps[k + 1].first) {
      SameLabel(more, mark, comps[k].last, comps[k + 1].first);
    }
  }

  /** In the end all components met hang together. */
  lemma {:induction false} TiesConnectEverything(edges: seq<Edge>, reps: seq<string>, comps: seq<Comp>, i: nat)
    requires Ordered(edges, reps, comps) && i < |comps|
    ensures Connected(edges + Ties(comps), comps[0].first, comps[i].first)
    decreases i
  {
    hide Connected, Ties, Ordered;
    var more := edges + Ties(comps);
    if i == 0 {
      ConnectedSelf(more, comps[0].first);
    } else {
      TiesConnectEverything(edges, reps, comps, i - 1);
      OrderedAt(edges, reps, comps, i - 1);
      ConnectedMore(edges, more, comps[i - 1].first, comps[i - 1].last);
      ConnectedJoin(more, comps[0].first, comps[i - 1].first, comps[i - 1].last);
      TieIs(comps, i - 1);
      assert Ties(comps)[i - 1] in more;
      ConnectedEdge(more, Ties(comps)[i - 1]);
      ConnectedJoin(more, comps[0].first, comps[i - 1].last, comps[i].first);
    }
  }

  lemma RepsHangTogether(edges: seq<Edge>, reps: seq<string>, comps: seq<Comp>, a: string, b: string)
    requires Ordered(edges, reps, comps) && a in reps && b in reps && a != "" && b != ""
    ensures Connected(edges + Ties(comps), a, b)
  {
    hide Connected, Ties;
    var more := edges + Ties(comps);
    var i :| 0 <= i < |comps| && Connected(edges, comps[i].first, a);
    var j :| 0 <= j < |comps| && Connected(edges, comps[j].first, b);
    ConnectedMore(edges, more, comps[i].first, a);
    ConnectedMore(edges, more, comps[j].first, b);
    TiesConnectEverything(edges, reps, comps, i);
    TiesConnectEverything(edges, reps, comps, j);
    ConnectedJoin(more, comps[0].first, comps[i].first, a);
    ConnectedBack(more, comps[0].first, a);
    ConnectedJoin(more, comps[0].first, comps[j].first, b);
    ConnectedJoin(more, a, comps[0].first, b);
  }

  // ----- which items are tied

  /** Items `f` and `l` are the first and the last of their component. */
  ghost predicate Spans(edges: seq<Edge>, reps: seq<string>, f: nat, l: nat) {
    && f <= l < |reps| && reps[f] != "" && reps[l] != "" && Connected(edges, reps[f], reps[l])
    && forall p :: 0 <= p < |reps| && reps[p] != "" && Connected(edges, reps[f], reps[p]) ==> f <= p <= l
  }

  /** The components met, in the order of their first items, span all items; each is
      tied by its last item to the first item of the next. */
  ghost predicate Tied(edges: seq<Edge>, reps: seq<string>, firsts: seq<nat>, lasts: seq<nat>, ties: seq<Edge>) {
    && |firsts| == |lasts| && Increasing(firsts) && |ties| == (if firsts == [] then 0 else |firsts| - 1)
    && (forall i :: 0 <= i < |firsts| ==> Spans(edges, reps, firsts[i], lasts[i]))
    && (forall p :: 0 <= p < |reps| && reps[p] != "" ==> InSome(edges, reps, firsts, p))
    && (forall k :: 0 <= k < |ties| ==> IsTie(reps, firsts, lasts, k, ties[k]))
  }

  ghost predicate InSome(edges: seq<Edge>, reps: seq<string>, firsts: seq<nat>, p: nat)
    requires p < |reps|
  {
    exists i :: 0 <= i < |firsts| && firsts[i] < |reps| && Connected(edges, reps[firsts[i]], reps[p])
  }

  ghost predicate IsTie(reps: seq<string>, firsts: seq<nat>, lasts: seq<nat>, k: nat, e: Edge) {
    && k + 1 < |firsts| == |lasts| && lasts[k] < |reps| && firsts[k + 1] < |reps|
    && e == Edge(reps[lasts[k]], reps[firsts[k + 1]])
  }

  lemma EntrySpans(root: Names, edges: seq<Edge>, reps: seq<string>, c: Comp, f: nat, l: nat)
    requires Represents(root, edges) && EntryOk(root, reps, c, f, l)
    requires forall r :: r in reps && r != "" ==> r in root
    ensures Spans(edges, reps, f, l)
  {
    hide Connected;
    forall p | 0 <= p < |reps| && reps[p] != "" && Connected(edges, reps[f], reps[p]) ensures f <= p <= l {
      assert reps[p] in reps;
      assert root[reps[p]] == root[reps[f]];
    }
  }

  lemma SpanAt(root: Names, edges: seq<Edge>, reps: seq<string>, comps: seq<Comp>, firsts: seq<nat>, lasts: seq<nat>,
               i: nat)
    requires Represents(root, edges) && Met(root, reps, comps, firsts, lasts) && i < |firsts|
    ensures |comps| == |firsts| == |lasts| && Spans(edges, reps, firsts[i], lasts[i])
    ensures reps[firsts[i]] == comps[i].first && reps[lasts[i]] == comps[i].last
  {
    hide Connected, Represents, Increasing, ApartRoots;
    forall r | r in reps && r != "" ensures r in root { assert HasEntry(root, comps, r); }
    assert EntryOk(root, reps, comps[i], firsts[i], lasts[i]);
    EntrySpans(root, edges, reps, comps[i], firsts[i], lasts[i]);
  }

  lemma InSomeAt(root: Names, edges: seq<Edge>, reps: seq<string>, comps: seq<Comp>, firsts: seq<nat>, lasts: seq<nat>,
                 p: nat)
    requires Represents(root, edges) && Met(root, reps, comps, firsts, lasts) && p < |reps| && reps[p] != ""
    ensures InSome(edges, reps, firsts, p)
  {
    hide Connected, Represents, Met, Increasing;
    MetSizes(root, reps, comps, firsts, lasts);
    MetIsOrdered(root, edges, reps, comps, firsts, lasts);
    assert reps[p] in reps;
    var i :| 0 <= i < |comps| && Connected(edges, comps[i].first, reps[p]);
    SpanAt(root, edges, reps, comps, firsts, lasts, i);
  }

  lemma MetSizes(root: Names, reps: seq<string>, comps: seq<Comp>, firsts: seq<nat>, lasts: seq<nat>)
    requires Met(root, reps, comps, firsts, lasts)
    ensures |comps| == |firsts| == |lasts| && Increasing(firsts)
  {
  }

  lemma MetIsTied(root: Names, edges: seq<Edge>, reps: seq<string>, comps: seq<Comp>, firsts: seq<nat>,
                  lasts: seq<nat>)
    requires Represents(root, edges) && Met(root, reps, comps, firsts, lasts)
    ensures Tied(edges, reps, firsts, lasts, Ties(comps))
  {
    hide Connected, Ties, Represents, Met, Increasing, InSome;
    MetSizes(root, reps, comps, firsts, lasts);
    forall i | 0 <= i < |firsts|
      ensures Spans(edges, reps, firsts[i], lasts[i])
      ensures reps[firsts[i]] == comps[i].first && reps[lasts[i]] == comps[i].last
    {
      SpanAt(root, edges, reps, comps, firsts, lasts, i);
    }
    forall p | 0 <= p < |reps| && reps[p] != "" ensures InSome(edges, reps, firsts, p) {
      InSomeAt(root, edges, reps, comps, firsts, lasts, p);
    }
    forall k | 0 <= k < |Ties(comps)| ensures IsTie(reps, firsts, lasts, k, Ties(comps)[k]) {
      TieIs(comps, k);
      assert Spans(edges, reps, firsts[k], lasts[k]) && Spans(edges, reps, firsts[k + 1], lasts[k + 1]);
    }
  }

  /** The whole block: the invisible edges lead from the last item of a component to the
      first of the next; they connect all items, and each of them joins two parts
      that nothing connected before it. */
  method InvisibleEdges(nodes: seq<string>, edges: seq<Edge>, items: seq<Item>)
    returns (ties: seq<Edge>, ghost reps: seq<string>, ghost firsts: seq<nat>, ghost lasts: seq<nat>)
    ensures |reps| == |items|
    ensures forall k :: 0 <= k < |items| && items[k].Single? ==> reps[k] == items[k].name
    ensures forall k :: 0 <= k < |items| && items[k].Subgraph? && items[k].children != {} ==>
      reps[k] in items[k].children
    ensures forall k :: 0 <= k < |items| && items[k].Subgraph? && items[k].children == {} ==> reps[k] == ""
    ensures Tied(edges, reps, firsts, lasts, ties)
    ensures forall k :: 0 <= k < |ties| ==> !Connected(edges + ties[..k], ties[k].src, ties[k].dst)
    ensures forall a, b :: a in reps && b in reps && a != "" && b != "" ==> Connected(edges + ties, a, b)
  {
    hide Ordered, Represents, Ties, Connected, EntryOk, Tied;
    var comps, rs, root, fs, ls := OrderComponents(nodes, edges, items);
    reps, firsts, lasts := rs, fs, ls;
    ties := AddTies(comps);
    MetIsTied(root, edges, reps, comps, fs, ls);
    forall i | 0 <= i < |comps| ensures comps[i].first in root && comps[i].last in root {
      EntryKnown(root, reps, comps[i], fs[i], ls[i]);
    }
    forall k | 0 <= k < |ties| ensures !Connected(edges + ties[..k], ties[k].src, ties[k].dst) {
      TiesJoinApartComponents(edges, reps, comps, root, k);
    }
    forall a, b | a in reps && b in reps && a != "" && b != "" ensures Connected(edges + ties, a, b) {
      RepsHangTogether(edges, reps, comps, a, b);
    }
  }

  lemma EntryKnown(root: Names, reps: seq<string>, c: Comp, f: nat, l: nat)
    requires EntryOk(root, reps, c, f, l)
    ensures c.first in root && c.last in root
  {
  }
}
