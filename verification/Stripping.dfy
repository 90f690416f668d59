/** Cutting the for_each and matrix job blocks out of the pipeline text
    (pikoci/for_each.go:270-350): deletions in place, from the end to the start. */
module Stripping {

  datatype Expansion = Expansion(name: string, start: nat, end: nat)

  ghost predicate InText(text: string, e: Expansion) { e.start < e.end <= |text| }

  ghost predicate Apart(a: Expansion, b: Expansion) { a.end <= b.start || b.end <= a.start }

  /** Byte ranges as the HCL parser reports them: inside the text and disjoint. */
  ghost predicate Ranges(text: string, es: seq<Expansion>) {
    && (forall i :: 0 <= i < |es| ==> InText(text, es[i]))
    && (forall i, j :: 0 <= i < j < |es| ==> Apart(es[i], es[j]))
  }

  ghost predicate Covered(es: seq<Expansion>, i: nat) {
    exists k :: 0 <= k < |es| && es[k].start <= i < es[k].end
  }

  /** The text from position i on without the bytes of any range, all ranges at once. */
  ghost function Outside(text: string, es: seq<Expansion>, i: nat): string
    decreases |text| - i
  {
    if i >= |text| then "" else (if Covered(es, i) then "" else [text[i]]) + Outside(text, es, i + 1)
  }

  lemma {:induction false} KeptStretch(text: string, es: seq<Expansion>, i: nat, j: nat)
    requires i <= j <= |text| && forall k :: i <= k < j ==> !Covered(es, k)
    ensures Outside(text, es, i) == text[i..j] + Outside(text, es, j)
    decreases j - i
  {
    if i < j {
      hide Covered;
      KeptStretch(text, es, i + 1, j);
      var rest := Outside(text, es, j);
      assert text[i..j] == [text[i]] + text[i + 1..j];
      assert [text[i]] + (text[i + 1..j] + rest) == text[i..j] + rest;
    }
  }

  lemma {:induction false} CutStretch(text: string, es: seq<Expansion>, i: nat, j: nat)
    requires i <= j <= |text| && forall k :: i <= k < j ==> Covered(es, k)
    ensures Outside(text, es, i) == Outside(text, es, j)
    decreases j - i
  {
    if i < j { CutStretch(text, es, i + 1, j); }
  }

  lemma {:induction false} SameCover(text: string, a: seq<Expansion>, b: seq<Expansion>, i: nat)
    requires forall k :: i <= k < |text| ==> (Covered(a, k) <==> Covered(b, k))
    ensures Outside(text, a, i) == Outside(text, b, i)
    decreases |text| - i
  {
    if i < |text| { SameCover(text, a, b, i + 1); }
  }

  lemma CoveredMore(es: seq<Expansion>, e: Expansion, i: nat)
    ensures Covered(es + [e], i) <==> Covered(es, i) || e.start <= i < e.end
  {
    var all := es + [e];
    assert all[|es|] == e;
    if Covered(es, i) {
      var k :| 0 <= k < |es| && es[k].start <= i < es[k].end;
      assert all[k] == es[k];
    }
  }

  /** Cutting a range that lies before all ranges cut so far. */
  lemma CutOne(text: string, done: seq<Expansion>, e: Expansion)
    requires InText(text, e) && forall k :: 0 <= k < |done| ==> e.end <= done[k].start
    ensures var r := Outside(text, done, 0);
      e.end <= |r| && Outside(text, done + [e], 0) == r[..e.start] + r[e.end..]
  {
    var all := done + [e];
    forall k: nat ensures Covered(all, k) <==> Covered(done, k) || e.start <= k < e.end { CoveredMore(done, e, k); }
    assert forall k :: 0 <= k < e.end ==> !Covered(done, k);
    KeptStretch(text, done, 0, e.end);
    KeptStretch(text, all, 0, e.start);
    CutStretch(text, all, e.start, e.end);
    SameCover(text, done, all, e.end);
    var r := Outside(text, done, 0);
    assert r[e.end..] == Outside(text, done, e.end) && r[..e.start] == text[0..e.start];
  }

  // ----- sorting

  ghost predicate LaterFirst(es: seq<Expansion>) {
    forall i, j :: 0 <= i < j < |es| ==> es[i].start >= es[j].start
  }

  method InsertByStart(es: seq<Expansion>, e: Expansion) returns (r: seq<Expansion>)
    requires LaterFirst(es)
    ensures LaterFirst(r) && multiset(r) == multiset(es) + multiset{e} && |r| == |es| + 1
  {
    var i := 0;
    while i < |es| && es[i].start >= e.start
      invariant 0 <= i <= |es| && forall k :: 0 <= k < i ==> es[k].start >= e.start
    {
      i := i + 1;
    }
    r := es[..i] + [e] + es[i..];
    assert es == es[..i] + es[i..];
  }

  method SortByStart(es: seq<Expansion>) returns (r: seq<Expansion>)
    ensures LaterFirst(r) && multiset(r) == multiset(es)
  {
    r := [];
    for i := 0 to |es|
      invariant LaterFirst(r) && multiset(r) == multiset(es[..i])
    {
      assert es[..i + 1] == es[..i] + [es[i]];
      r := InsertByStart(r, es[i]);
    }
    assert es[..|es|] == es;
  }

  lemma SortedRanges(text: string, es: seq<Expansion>, r: seq<Expansion>)
    requires Ranges(text, es) && multiset(r) == multiset(es) && LaterFirst(r)
    ensures forall i, j :: 0 <= i < j < |r| ==> r[j].end <= r[i].start
    ensures forall i :: 0 <= i < |r| ==> InText(text, r[i])
  {
    forall i | 0 <= i < |r| ensures r[i] in es && InText(text, r[i]) { assert r[i] in multiset(es); }
    forall i, j | 0 <= i < j < |r| ensures r[j].end <= r[i].start {
      DistinctAfterSort(es, r, i, j);
      var a :| 0 <= a < |es| && es[a] == r[i];
      var b :| 0 <= b < |es| && es[b] == r[j];
      assert a < b ==> Apart(es[a], es[b]);
      assert b < a ==> Apart(es[b], es[a]);
    }
  }

  /** Disjoint ranges are distinct, so a sorted copy holds none twice. */
  lemma DistinctAfterSort(es: seq<Expansion>, r: seq<Expansion>, i: nat, j: nat)
    requires i < j < |r| && multiset(r) == multiset(es)
    requires forall a, b :: 0 <= a < b < |es| ==> Apart(es[a], es[b])
    requires r[i].start < r[i].end
    ensures r[i] != r[j]
  {
    CountedTwice(r, i, j);
    AtMostOnce(es, r[i]);
  }

  lemma CountedTwice(r: seq<Expansion>, i: nat, j: nat)
    requires i < j < |r|
    ensures r[i] == r[j] ==> multiset(r)[r[i]] >= 2
  {
    assert r == r[..j] + [r[j]] + r[j + 1..];
    assert r[i] in r[..j];
  }

  lemma {:induction false} AtMostOnce(es: seq<Expansion>, e: Expansion)
    requires forall a, b :: 0 <= a < b < |es| ==> Apart(es[a], es[b])
    requires e.start < e.end
    ensures multiset(es)[e] <= 1
    decreases |es|
  {
    if es != [] {
      var rest := es[1..];
      AtMostOnce(rest, e);
      assert es == [es[0]] + rest;
      forall k | 0 <= k < |rest| ensures es[0] == e ==> rest[k] != e { assert Apart(es[0], es[k + 1]); }
    }
  }

  lemma SameRangesSameCover(es: seq<Expansion>, r: seq<Expansion>, i: nat)
    requires multiset(r) == multiset(es)
    ensures Covered(r, i) <==> Covered(es, i)
  {
    if Covered(r, i) {
      var k :| 0 <= k < |r| && r[k].start <= i < r[k].end;
      assert r[k] in multiset(es);
    }
    if Covered(es, i) {
      var k :| 0 <= k < |es| && es[k].start <= i < es[k].end;
      assert es[k] in multiset(r);
    }
  }

  lemma SameRangesSameText(text: string, es: seq<Expansion>, r: seq<Expansion>)
    requires multiset(r) == multiset(es)
    ensures Outside(text, r, 0) == Outside(text, es, 0)
  {
    forall i: nat ensures Covered(r, i) <==> Covered(es, i) { SameRangesSameCover(es, r, i); }
    SameCover(text, r, es, 0);
  }

  lemma NothingCut(text: string)
    ensures Outside(text, [], 0) == text
  {
    KeptStretch(text, [], 0, |text|);
  }

  /** removeForEachAndMatrixFromBlock: deleting from the end to the start equals
      deleting all ranges at once. */
  method RemoveRanges(text: string, es: seq<Expansion>) returns (result: string)
    requires Ranges(text, es)
    ensures result == Outside(text, es, 0)
  {
    var sorted := SortByStart(es);
    SortedRanges(text, es, sorted);
    result := text;
    NothingCut(text);
    for k := 0 to |sorted|
      invariant result == Outside(text, sorted[..k], 0)
    {
      var e := sorted[k];
      CutOne(text, sorted[..k], e);
      assert sorted[..k + 1] == sorted[..k] + [e];
      result := result[..e.start] + result[e.end..];
    }
    assert sorted[..|sorted|] == sorted;
    SameRangesSameText(text, es, sorted);
  }

  // ----- what is saved

  /** `e` is the first block of its name. */
  ghost predicate FirstNamed(es: seq<Expansion>, e: Expansion) {
    e in es && forall d :: d in es && d.name == e.name ==> e.start <= d.start
  }

  /** The bytes kept under a name are those of the first block of that name. */
  ghost predicate Saved(text: string, es: seq<Expansion>, bytes: map<string, string>) {
    forall e :: FirstNamed(es, e) && InText(text, e) ==> e.name in bytes && bytes[e.name] == text[e.start..e.end]
  }

  /** In a list sorted later-first, the last entry of a name is written last. */
  ghost predicate LastWritten(text: string, sorted: seq<Expansion>, k: nat, bytes: map<string, string>)
    requires k <= |sorted|
  {
    forall i :: 0 <= i < k && InText(text, sorted[i]) && (forall j :: i < j < k ==> sorted[j].name != sorted[i].name)
      ==> sorted[i].name in bytes && bytes[sorted[i].name] == text[sorted[i].start..sorted[i].end]
  }

  /** Bytes are kept under names of blocks only. */
  ghost predicate OnlyNamed(es: seq<Expansion>, bytes: map<string, string>) {
    forall n :: n in bytes ==> exists e :: e in es && e.name == n
  }

  lemma NothingNamed(es: seq<Expansion>)
    ensures OnlyNamed(es, map[])
  {
  }

  lemma NamedGrows(es: seq<Expansion>, sorted: seq<Expansion>, k: nat, bytes: map<string, string>, b: string)
    requires k < |sorted| && multiset(sorted) == multiset(es) && OnlyNamed(es, bytes)
    ensures OnlyNamed(es, bytes[sorted[k].name := b])
  {
    assert sorted[k] in multiset(sorted) && sorted[k] in multiset(es) && sorted[k] in es;
  }

  /** stripForEachJobBlocks: the text without the blocks, and the blocks' bytes. */
  method StripForEachJobBlocks(text: string, es: seq<Expansion>) returns (result: string, bytes: map<string, string>)
    requires Ranges(text, es)
    ensures result == Outside(text, es, 0)
    ensures Saved(text, es, bytes) && OnlyNamed(es, bytes)
  {
    hide Covered, LaterFirst, FirstNamed, Outside, OnlyNamed;
    var sorted := SortByStart(es);
    SortedRanges(text, es, sorted);
    result, bytes := text, map[];
    NothingNamed(es);
    NothingCut(text);
    for k := 0 to |sorted|
      invariant result == Outside(text, sorted[..k], 0)
      invariant LastWritten(text, sorted, k, bytes)
      invariant OnlyNamed(es, bytes)
    {
      var e := sorted[k];
      NamedGrows(es, sorted, k, bytes, text[e.start..e.end]);
      bytes := bytes[e.name := text[e.start..e.end]];
      CutOne(text, sorted[..k], e);
      assert sorted[..k + 1] == sorted[..k] + [e];
      result := result[..e.start] + result[e.end..];
    }
    assert sorted[..|sorted|] == sorted;
    SameRangesSameText(text, es, sorted);
    forall e | FirstNamed(es, e) && InText(text, e)
      ensures e.name in bytes && bytes[e.name] == text[e.start..e.end]
    {
      var i := FirstIsLast(text, es, sorted, e);
    }
  }

  lemma FirstIsLast(text: string, es: seq<Expansion>, sorted: seq<Expansion>, e: Expansion) returns (i: nat)
    requires Ranges(text, es) && multiset(sorted) == multiset(es) && LaterFirst(sorted) && FirstNamed(es, e)
    ensures i < |sorted| && sorted[i] == e && forall j :: i < j < |sorted| ==> sorted[j].name != e.name
  {
    assert e in multiset(sorted);
    i :| 0 <= i < |sorted| && sorted[i] == e;
    SortedRanges(text, es, sorted);
    forall j | i < j < |sorted| ensures sorted[j].name != e.name {
      assert sorted[j] in multiset(es) && sorted[j].end <= sorted[i].start;
    }
  }

  /** With distinct names every block finds its own bytes again. */
  lemma DistinctNamesKeepTheirBytes(text: string, es: seq<Expansion>, bytes: map<string, string>, e: Expansion)
    requires Ranges(text, es) && Saved(text, es, bytes) && e in es
    requires forall d :: d in es && d != e ==> d.name != e.name
    ensures e.name in bytes && bytes[e.name] == text[e.start..e.end]
  {
    assert FirstNamed(es, e);
  }

  /** With a repeated name every block is given the bytes of the first one. */
  lemma RepeatedNameGetsFirstBytes(text: string, es: seq<Expansion>, bytes: map<string, string>, e: Expansion,
                                   first: Expansion)
    requires Ranges(text, es) && Saved(text, es, bytes) && e in es && FirstNamed(es, first) && first.name == e.name
    ensures InText(text, first) && e.name in bytes && bytes[e.name] == text[first.start..first.end]
  {
    var k :| 0 <= k < |es| && es[k] == first;
  }
}
