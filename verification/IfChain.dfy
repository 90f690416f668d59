/** Grouping of if / else_if / else blocks into conditional steps
    (pikoci/helper.go:1941-2030), and the validator that checks the same grammar
    on its own (pikoci/helper.go:750-788). */
module IfChain {

  datatype Kind = If | ElseIf | Else | Step | Matrix | Unknown

  datatype Block = Block(kind: Kind, text: string)

  predicate IsBranch(k: Kind) { k == ElseIf || k == Else }

  predicate IsConditional(k: Kind) { k == If || IsBranch(k) }

  // ----- the rule, said about the block list alone

  /** An else_if or else with nothing to belong to. */
  ghost predicate IsStray(bs: seq<Block>, i: nat)
    requires i < |bs|
  {
    bs[i].kind in {ElseIf, Else} && (i == 0 || bs[i - 1].kind !in {If, ElseIf})
  }

  ghost predicate WellOrdered(bs: seq<Block>) {
    forall i :: 0 <= i < |bs| ==> !IsStray(bs, i)
  }

  // ----- groups

  datatype Item = Chain(branches: seq<Block>) | Plain(block: Block)

  function BlocksOf(item: Item): seq<Block> {
    match item case Chain(bs) => bs case Plain(b) => [b]
  }

  function Flatten(items: seq<Item>): seq<Block> {
    if items == [] then [] else BlocksOf(items[0]) + Flatten(items[1..])
  }

  /** if (else_if)* else? */
  ghost predicate IsChain(bs: seq<Block>) {
    && bs != [] && bs[0].kind == If
    && (forall i :: 1 <= i < |bs| ==> bs[i].kind in {ElseIf, Else})
    && (forall i :: 1 <= i < |bs| - 1 ==> bs[i].kind == ElseIf)
  }

  ghost predicate ItemOk(item: Item) {
    match item case Chain(bs) => IsChain(bs) case Plain(b) => b.kind !in {If, ElseIf, Else}
  }

  ghost predicate Grouping(items: seq<Item>, bs: seq<Block>) {
    Flatten(items) == bs && forall i :: 0 <= i < |items| ==> ItemOk(items[i])
  }

  lemma {:induction false} FlattenAppend(items: seq<Item>, item: Item)
    ensures Flatten(items + [item]) == Flatten(items) + BlocksOf(item)
    decreases |items|
  {
    if items == [] {
      assert Flatten([item]) == BlocksOf(item) + Flatten([]);
    } else {
      assert (items + [item])[1..] == items[1..] + [item];
      FlattenAppend(items[1..], item);
    }
  }

  datatype Result = Grouped(items: seq<Item>) | Stray(at: nat)

  /** The inner loop: collects one chain starting at `first`. */
  method TakeChain(bs: seq<Block>, first: nat) returns (branches: seq<Block>, i: nat)
    requires first < |bs| && IsConditional(bs[first].kind)
    ensures first <= i <= |bs| && branches == bs[first..i]
    ensures branches == [] <==> bs[first].kind != If
    ensures branches != [] ==> IsChain(branches) && forall k :: first <= k < i ==> !IsStray(bs, k)
    ensures branches != [] && i < |bs| && IsBranch(bs[i].kind) ==> IsStray(bs, i)
  {
    branches, i := [], first;
    while i < |bs|
      invariant first <= i <= |bs| && branches == bs[first..i]
      invariant i > first ==> IsChain(branches) && forall k :: first <= k < i ==> bs[k].kind != Else && !IsStray(bs, k)
      decreases |bs| - i
    {
      var b := bs[i];
      if !IsConditional(b.kind) || (branches == [] && b.kind != If) || (branches != [] && b.kind == If) { break; }
      assert bs[first..i + 1] == bs[first..i] + [b];
      branches, i := branches + [b], i + 1;
      if b.kind == Else { break; }
    }
  }

  lemma GroupingAppend(items: seq<Item>, item: Item, bs: seq<Block>)
    requires Grouping(items, bs) && ItemOk(item)
    ensures Grouping(items + [item], bs + BlocksOf(item))
  {
    FlattenAppend(items, item);
  }

  /** The parser succeeds exactly on well-ordered blocks, uses every block once and
      in order, and otherwise stops at the first stray branch. */
  method GroupPlan(bs: seq<Block>) returns (r: Result)
    ensures r.Grouped? <==> WellOrdered(bs)
    ensures r.Grouped? ==> Grouping(r.items, bs)
    ensures r.Stray? ==> r.at < |bs| && IsStray(bs, r.at) && forall k :: 0 <= k < r.at ==> !IsStray(bs, k)
  {
    hide Grouping, IsChain;
    var items, i := [], 0;
    EmptyGrouping();
    while i < |bs|
      invariant i <= |bs| && Grouping(items, bs[..i])
      invariant forall k :: 0 <= k < i ==> !IsStray(bs, k)
      invariant i < |bs| && IsBranch(bs[i].kind) ==> IsStray(bs, i)
    {
      if !IsConditional(bs[i].kind) {
        GroupingAppend(items, Plain(bs[i]), bs[..i]);
        assert bs[..i + 1] == bs[..i] + [bs[i]];
        items, i := items + [Plain(bs[i])], i + 1;
      } else {
        var branches, next := TakeChain(bs, i);
        if branches == [] { return Stray(i); }
        GroupingAppend(items, Chain(branches), bs[..i]);
        assert bs[..next] == bs[..i] + branches;
        items, i := items + [Chain(branches)], next;
      }
    }
    assert bs[..i] == bs;
    return Grouped(items);
  }

  lemma EmptyGrouping()
    ensures Grouping([], [])
  {
  }

  // ----- the grouping is the only one

  lemma StartsFresh(items: seq<Item>)
    requires forall i :: 0 <= i < |items| ==> ItemOk(items[i])
    ensures Flatten(items) == [] <==> items == []
    ensures items != [] ==> !IsBranch(Flatten(items)[0].kind)
  {
    if items != [] {
      assert ItemOk(items[0]);
      assert Flatten(items)[0] == BlocksOf(items[0])[0];
    }
  }

  lemma HeadIsForced(a: seq<Item>, b: seq<Item>, bs: seq<Block>)
    requires Grouping(a, bs) && Grouping(b, bs) && a != [] && b != []
    ensures |BlocksOf(a[0])| <= |BlocksOf(b[0])|
  {
    var x, y, rest := BlocksOf(a[0]), BlocksOf(b[0]), Flatten(b[1..]);
    assert ItemOk(a[0]) && ItemOk(b[0]);
    StartsFresh(b[1..]);
    assert bs == x + Flatten(a[1..]) && bs == y + rest;
    assert |y| < |bs| ==> bs[|y|] == rest[0];
    assert forall k :: 0 <= k < |x| ==> bs[k] == x[k];
  }

  lemma {:induction false} GroupingIsUnique(a: seq<Item>, b: seq<Item>, bs: seq<Block>)
    requires Grouping(a, bs) && Grouping(b, bs)
    ensures a == b
    decreases |a|
  {
    StartsFresh(a);
    StartsFresh(b);
    if a != [] && b != [] {
      HeadIsForced(a, b, bs);
      HeadIsForced(b, a, bs);
      var n := |BlocksOf(a[0])|;
      assert bs == BlocksOf(a[0]) + Flatten(a[1..]) && bs == BlocksOf(b[0]) + Flatten(b[1..]);
      assert BlocksOf(a[0]) == bs[..n] == BlocksOf(b[0]) && Flatten(a[1..]) == bs[n..] == Flatten(b[1..]);
      assert ItemOk(a[0]) && ItemOk(b[0]);
      assert a[0] == b[0];
      GroupingIsUnique(a[1..], b[1..], bs[n..]);
      assert a == [a[0]] + a[1..] && b == [b[0]] + b[1..];
    }
  }

  // ----- lists with some blocks left out

  /** The list without the blocks of one kind: the validator skips unknown blocks, and
      a job is parsed with its matrix blocks cut out. */
  function Without(bs: seq<Block>, kind: Kind): seq<Block>
    decreases |bs|
  {
    if bs == [] then []
    else
      var (init, last) := (bs[..|bs| - 1], bs[|bs| - 1]);
      Without(init, kind) + if last.kind == kind then [] else [last]
  }

  predicate Open(bs: seq<Block>) {
    bs != [] && (bs[|bs| - 1].kind == If || bs[|bs| - 1].kind == ElseIf)
  }

  lemma OrderedAppend(bs: seq<Block>, b: Block)
    ensures WellOrdered(bs + [b]) <==> WellOrdered(bs) && (IsBranch(b.kind) ==> Open(bs))
  {
    var cs := bs + [b];
    assert forall i :: 0 <= i < |bs| ==> (IsStray(cs, i) <==> IsStray(bs, i));
    assert IsStray(cs, |bs|) <==> IsBranch(b.kind) && !Open(bs);
  }

  lemma WithoutAppend(bs: seq<Block>, b: Block, kind: Kind)
    ensures Without(bs + [b], kind) == if b.kind == kind then Without(bs, kind) else Without(bs, kind) + [b]
  {
    assert (bs + [b])[..|bs|] == bs;
  }

  lemma {:induction false} WithoutBoth(bs: seq<Block>, k: Kind, l: Kind)
    ensures Without(Without(bs, k), l) == Without(Without(bs, l), k)
    decreases |bs|
  {
    if bs != [] {
      var init, b := bs[..|bs| - 1], bs[|bs| - 1];
      assert bs == init + [b];
      WithoutBoth(init, k, l);
      WithoutAppend(init, b, k);
      WithoutAppend(init, b, l);
      WithoutAppend(Without(init, k), b, l);
      WithoutAppend(Without(init, l), b, k);
    }
  }

  /** An else or else_if stands directly after a block of the given kind. */
  ghost predicate BranchAfter(bs: seq<Block>, kind: Kind) {
    exists i :: 0 < i < |bs| && bs[i].kind in {ElseIf, Else} && bs[i - 1].kind == kind
  }

  lemma BranchAfterAppend(bs: seq<Block>, b: Block, kind: Kind)
    ensures BranchAfter(bs + [b], kind) <==>
      BranchAfter(bs, kind) || (bs != [] && IsBranch(b.kind) && bs[|bs| - 1].kind == kind)
  {
    var cs := bs + [b];
    assert forall i :: 0 <= i < |bs| ==> cs[i] == bs[i];
    if BranchAfter(bs, kind) {
      var i :| 0 < i < |bs| && IsBranch(bs[i].kind) && bs[i - 1].kind == kind;
      assert IsBranch(cs[i].kind) && cs[i - 1].kind == kind;
    }
    if bs != [] && IsBranch(b.kind) && bs[|bs| - 1].kind == kind {
      assert IsBranch(cs[|bs|].kind) && cs[|bs| - 1].kind == kind;
    }
  }

  lemma OpenWithout(bs: seq<Block>, kind: Kind)
    requires !IsConditional(kind)
    ensures bs == [] ==> Without(bs, kind) == []
    ensures bs != [] && bs[|bs| - 1].kind != kind ==> (Open(bs) <==> Open(Without(bs, kind)))
  {
  }

  /** Leaving out the blocks of an unconditional kind matters to the order exactly
      through branches that stand directly after one. */
  lemma {:induction false} OrderedExactlyWhen(bs: seq<Block>, kind: Kind)
    requires !IsConditional(kind)
    ensures WellOrdered(bs) <==> WellOrdered(Without(bs, kind)) && !BranchAfter(bs, kind)
    decreases |bs|
  {
    hide WellOrdered, Without, BranchAfter, Open;
    if bs == [] {
      EmptyIsOrdered(bs, kind);
    } else {
      var init, b := bs[..|bs| - 1], bs[|bs| - 1];
      assert bs == init + [b];
      OrderedExactlyWhen(init, kind);
      OrderedAppend(init, b);
      OrderedAppend(Without(init, kind), b);
      WithoutAppend(init, b, kind);
      BranchAfterAppend(init, b, kind);
      OpenWithout(init, kind);
      OpenAfter(init, kind);
    }
  }

  lemma EmptyIsOrdered(bs: seq<Block>, kind: Kind)
    requires bs == []
    ensures WellOrdered(bs) && WellOrdered(Without(bs, kind)) && !BranchAfter(bs, kind)
  {
  }

  /** Nothing belongs to an unconditional block, nor to no block at all. */
  lemma OpenAfter(bs: seq<Block>, kind: Kind)
    requires !IsConditional(kind)
    ensures Open(bs) ==> bs != [] && bs[|bs| - 1].kind != kind
    ensures bs == [] ==> !Open(Without(bs, kind))
  {
  }

  // ----- the validator

  lemma OneMore(bs: seq<Block>, i: nat)
    requires i < |bs|
    ensures var (k, n) := (Without(bs[..i], Unknown), Without(bs[..i + 1], Unknown));
      if bs[i].kind == Unknown then n == k
      else && (WellOrdered(n) <==> WellOrdered(k) && (IsBranch(bs[i].kind) ==> Open(k)))
           && (Open(n) <==> bs[i].kind == If || bs[i].kind == ElseIf)
  {
    assert bs[..i + 1] == bs[..i] + [bs[i]];
    WithoutAppend(bs[..i], bs[i], Unknown);
    OrderedAppend(Without(bs[..i], Unknown), bs[i]);
  }

  lemma NoneYet(bs: seq<Block>)
    ensures WellOrdered(Without(bs[..0], Unknown)) && !Open(Without(bs[..0], Unknown))
  {
  }

  /** An if stands before position i with only else_if and unknown blocks between. */
  ghost predicate Belongs(bs: seq<Block>, i: nat)
    requires i <= |bs|
  {
    exists j :: 0 <= j < i && bs[j].kind == If && forall k :: j < k < i ==> bs[k].kind in {ElseIf, Unknown}
  }

  lemma BelongsNext(bs: seq<Block>, i: nat)
    requires i < |bs|
    ensures Belongs(bs, i + 1) <==> bs[i].kind == If || (bs[i].kind in {ElseIf, Unknown} && Belongs(bs, i))
  {
    if j :| 0 <= j < i && bs[j].kind == If && forall k :: j < k < i ==> bs[k].kind in {ElseIf, Unknown} {
      if bs[i].kind in {ElseIf, Unknown} {
        assert forall k :: j < k < i + 1 ==> bs[k].kind in {ElseIf, Unknown};
      }
    }
    if j :| 0 <= j < i + 1 && bs[j].kind == If && forall k :: j < k < i + 1 ==> bs[k].kind in {ElseIf, Unknown} {
      if j < i { assert bs[i].kind in {ElseIf, Unknown}; }
    }
  }

  ghost predicate Increasing(at: seq<nat>) { forall k, l :: 0 <= k < l < |at| ==> at[k] < at[l] }

  /** The places before `n` of the branches that belong to no if. */
  ghost predicate StraysAre(bs: seq<Block>, n: nat, strays: seq<nat>)
    requires n <= |bs|
  {
    Increasing(strays) &&
    forall i :: i in strays <==> 0 <= i < n && bs[i].kind in {ElseIf, Else} && !Belongs(bs, i)
  }

  ghost predicate UnknownAre(bs: seq<Block>, n: nat, unknown: seq<nat>)
    requires n <= |bs|
  {
    Increasing(unknown) && forall i :: i in unknown <==> 0 <= i < n && bs[i].kind == Unknown
  }

  lemma PlaceAdded(at: seq<nat>, n: nat)
    requires Increasing(at) && forall i :: i in at ==> i < n
    ensures Increasing(at + [n]) && forall i :: i in at + [n] <==> i in at || i == n
  {
    assert forall k :: 0 <= k < |at| ==> at[k] in at;
  }

  lemma StraysGrow(bs: seq<Block>, n: nat, strays: seq<nat>)
    requires n < |bs| && StraysAre(bs, n, strays)
    ensures StraysAre(bs, n + 1, if bs[n].kind in {ElseIf, Else} && !Belongs(bs, n) then strays + [n] else strays)
  {
    hide Belongs, Increasing;
    PlaceAdded(strays, n);
  }

  lemma UnknownGrow(bs: seq<Block>, n: nat, unknown: seq<nat>)
    requires n < |bs| && UnknownAre(bs, n, unknown)
    ensures UnknownAre(bs, n + 1, if bs[n].kind == Unknown then unknown + [n] else unknown)
  {
    hide Increasing;
    PlaceAdded(unknown, n);
  }

  lemma NoPlacesYet(bs: seq<Block>)
    ensures StraysAre(bs, 0, []) && UnknownAre(bs, 0, []) && !Belongs(bs, 0)
  {
  }

  /** validateJobBlock: it complains about exactly the branches that belong to no if,
      and about exactly the unknown blocks; so its ordering complaints are empty
      exactly when the known blocks, taken alone, are well ordered. */
  method ValidateJobBlock(bs: seq<Block>) returns (strays: seq<nat>, unknown: seq<nat>)
    ensures StraysAre(bs, |bs|, strays) && UnknownAre(bs, |bs|, unknown)
    ensures strays == [] <==> WellOrdered(Without(bs, Unknown))
    ensures unknown == [] <==> forall i :: 0 <= i < |bs| ==> bs[i].kind != Unknown
  {
    hide Without, WellOrdered, Open, Belongs, StraysAre, UnknownAre;
    strays, unknown := [], [];
    var lastIf := -1;
    NoneYet(bs);
    NoPlacesYet(bs);
    for i := 0 to |bs|
      invariant StraysAre(bs, i, strays) && UnknownAre(bs, i, unknown) && (lastIf >= 0 <==> Belongs(bs, i))
      invariant strays == [] <==> WellOrdered(Without(bs[..i], Unknown))
      invariant strays == [] ==> (lastIf >= 0 <==> Open(Without(bs[..i], Unknown)))
      invariant unknown == [] <==> forall k :: 0 <= k < i ==> bs[k].kind != Unknown
    {
      OneMore(bs, i);
      BelongsNext(bs, i);
      StraysGrow(bs, i, strays);
      UnknownGrow(bs, i, unknown);
      match bs[i].kind {
        case Unknown => unknown := unknown + [i];
        case If => lastIf := i;
        case ElseIf => if lastIf < 0 { strays := strays + [i]; }
        case Else =>
          if lastIf < 0 { strays := strays + [i]; }
          lastIf := -1;
        case Step => lastIf := -1;
        case Matrix => lastIf := -1;
      }
    }
    assert bs[..|bs|] == bs;
  }

  // ----- validator and parser

  /** What the validator takes for a block's predecessor, and what the parser does. */
  function Validated(bs: seq<Block>): seq<Block> { Without(bs, Unknown) }

  function Parsed(bs: seq<Block>): seq<Block> { Without(bs, Matrix) }

  /** The two views of one job, apart from what each leaves out. */
  lemma TwoViews(bs: seq<Block>)
    ensures WellOrdered(Parsed(bs)) <==>
      WellOrdered(Without(Without(bs, Matrix), Unknown)) && !BranchAfter(Parsed(bs), Unknown)
    ensures WellOrdered(Validated(bs)) <==>
      WellOrdered(Without(Without(bs, Matrix), Unknown)) && !BranchAfter(Validated(bs), Matrix)
  {
    OrderedExactlyWhen(Parsed(bs), Unknown);
    OrderedExactlyWhen(Validated(bs), Matrix);
    WithoutBoth(bs, Unknown, Matrix);
  }

  /** The validator reads the whole job, the parser the job without its matrix blocks.
      A job the validator finds well ordered parses exactly when no branch stands, for
      the parser, directly after an unknown block; a job that parses is well ordered
      for the validator exactly when no branch stands, for it, directly after a
      matrix block.  So whatever is valid parses, and without matrix blocks the jobs
      that are valid are those that parse and have no unknown block. */
  method ParsesWhatItValidates(bs: seq<Block>) returns (strays: seq<nat>, unknown: seq<nat>, r: Result)
    ensures StraysAre(bs, |bs|, strays) && UnknownAre(bs, |bs|, unknown)
    ensures unknown == [] <==> forall i :: 0 <= i < |bs| ==> bs[i].kind != Unknown
    ensures strays == [] ==> (r.Grouped? <==> !BranchAfter(Parsed(bs), Unknown))
    ensures r.Grouped? ==> (strays == [] <==> !BranchAfter(Validated(bs), Matrix))
    ensures strays == [] && unknown == [] ==> r.Grouped?
    ensures (forall i :: 0 <= i < |bs| ==> bs[i].kind != Matrix) ==>
      (strays == [] && unknown == [] <==> r.Grouped? && unknown == [])
  {
    strays, unknown := ValidateJobBlock(bs);
    r := GroupPlan(Parsed(bs));
    TwoViews(bs);
    if unknown == [] { NoneOfKind(bs, Matrix, Unknown); }
    if forall i :: 0 <= i < |bs| ==> bs[i].kind != Matrix { NoneOfKind(bs, Unknown, Matrix); }
    hide WellOrdered, Without;
  }

  lemma {:induction false} WithoutHolds(bs: seq<Block>, kind: Kind, b: Block)
    requires b in Without(bs, kind)
    ensures b in bs
    decreases |bs|
  {
    var init := bs[..|bs| - 1];
    if b in Without(init, kind) { WithoutHolds(init, kind, b); }
  }

  lemma NoneOfKind(bs: seq<Block>, removed: Kind, kind: Kind)
    requires forall i :: 0 <= i < |bs| ==> bs[i].kind != kind
    ensures !BranchAfter(Without(bs, removed), kind)
  {
    var rest := Without(bs, removed);
    forall i | 0 <= i < |rest| ensures rest[i].kind != kind { WithoutHolds(bs, removed, rest[i]); }
  }

  /** With an unknown block in between the validator accepts the else and the parser
      does not; with a matrix block it is the other way round. */
  lemma BlocksBetweenDivide(a: Block, u: Block, m: Block, e: Block)
    requires a.kind == If && u.kind == Unknown && m.kind == Matrix && e.kind == Else
    ensures WellOrdered(Validated([a, u, e])) && !WellOrdered(Parsed([a, u, e]))
    ensures !WellOrdered(Validated([a, m, e])) && WellOrdered(Parsed([a, m, e]))
  {
    hide WellOrdered, IsStray, Without;
    ThreeWithout(a, u, e, Unknown);
    ThreeWithout(a, u, e, Matrix);
    ThreeWithout(a, m, e, Unknown);
    ThreeWithout(a, m, e, Matrix);
    ElseAfterIf(a, u, e);
    ElseAfterIf(a, m, e);
  }

  lemma ThreeWithout(a: Block, b: Block, e: Block, kind: Kind)
    requires a.kind != kind && e.kind != kind
    ensures Without([a, b, e], kind) == if b.kind == kind then [a] + [e] else [a, b, e]
  {
    assert Without([], kind) == [];
    hide Without;
    WithoutAppend([], a, kind);
    assert [] + [a] == [a] && [a] + [b] == [a, b] && [a, b] + [e] == [a, b, e];
    WithoutAppend([a], b, kind);
    WithoutAppend([a, b], e, kind);
  }

  lemma ElseAfterIf(a: Block, b: Block, e: Block)
    requires a.kind == If && !IsConditional(b.kind) && e.kind == Else
    ensures WellOrdered([a] + [e]) && !WellOrdered([a, b, e])
  {
    assert IsStray([a, b, e], 2);
  }
}
