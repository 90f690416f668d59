/** for_each and matrix elaboration: the product of the matrix axes and the check
    on slugs (pikoci/for_each.go:89-96 and 192-268). */
module ForEach {
  import opened Collections

  // ----- the matrix

  datatype Axis = Axis(name: string, values: seq<string>)

  type Combo = map<string, string>

  ghost predicate DistinctAxes(axes: seq<Axis>) {
    forall i, j :: 0 <= i < j < |axes| ==> axes[i].name != axes[j].name
  }

  /** A choice of one value on each axis. */
  ghost predicate Chooses(axes: seq<Axis>, m: Combo) {
    && (forall i :: 0 <= i < |axes| ==> axes[i].name in m && m[axes[i].name] in axes[i].values)
    && (forall n :: n in m ==> exists i :: 0 <= i < |axes| && axes[i].name == n)
  }

  /** The combinations that extend one combination along an axis. */
  ghost function Row(c: Combo, ax: Axis): seq<Combo> {
    seq(|ax.values|, j requires 0 <= j < |ax.values| => c[ax.name := ax.values[j]])
  }

  ghost function Extend(combos: seq<Combo>, ax: Axis): seq<Combo> {
    if combos == [] then [] else Row(combos[0], ax) + Extend(combos[1..], ax)
  }

  ghost function Product(axes: seq<Axis>): seq<Combo> {
    if axes == [] then [map[]] else Extend(Product(axes[..|axes| - 1]), axes[|axes| - 1])
  }

  lemma {:induction false} ExtendAppend(combos: seq<Combo>, c: Combo, ax: Axis)
    ensures Extend(combos + [c], ax) == Extend(combos, ax) + Row(c, ax)
    decreases |combos|
  {
    if combos == [] {
      assert Extend([c], ax) == Row(c, ax) + Extend([], ax);
    } else {
      assert (combos + [c])[1..] == combos[1..] + [c];
      ExtendAppend(combos[1..], c, ax);
    }
  }

  /** The three nested loops of expandMatrix. */
  method ExpandMatrix(axes: seq<Axis>) returns (combos: seq<Combo>)
    ensures combos == Product(axes)
  {
    hide Extend;
    combos := [map[]];
    for k := 0 to |axes|
      invariant combos == Product(axes[..k])
    {
      var ax := axes[k];
      assert axes[..k + 1][..k] == axes[..k];
      var next: seq<Combo> := [];
      NothingExtended(ax);
      for i := 0 to |combos|
        invariant next == Extend(combos[..i], ax)
      {
        ghost var before := next;
        for j := 0 to |ax.values|
          invariant next == before + Row(combos[i], ax)[..j]
        {
          assert Row(combos[i], ax)[..j + 1] == Row(combos[i], ax)[..j] + [combos[i][ax.name := ax.values[j]]];
          next := next + [combos[i][ax.name := ax.values[j]]];
        }
        assert Row(combos[i], ax)[..|ax.values|] == Row(combos[i], ax);
        ExtendAppend(combos[..i], combos[i], ax);
        assert combos[..i + 1] == combos[..i] + [combos[i]];
      }
      assert combos[..|combos|] == combos;
      combos := next;
    }
    assert axes[..|axes|] == axes;
  }

  // ----- the order of the list

  lemma {:induction false} ExtendAt(combos: seq<Combo>, ax: Axis, k: nat, j: nat)
    requires k < |combos| && j < |ax.values|
    ensures |Extend(combos, ax)| == |combos| * |ax.values| && k * |ax.values| + j < |combos| * |ax.values|
    ensures Extend(combos, ax)[k * |ax.values| + j] == combos[k][ax.name := ax.values[j]]
    decreases |combos|
  {
    var n, rest := |ax.values|, combos[1..];
    ExtendSize(rest, ax);
    assert |combos| * n == n + |rest| * n;
    if k > 0 {
      ExtendAt(rest, ax, k - 1, j);
      assert k * n == n + (k - 1) * n;
    }
  }

  lemma {:induction false} ExtendSize(combos: seq<Combo>, ax: Axis)
    ensures |Extend(combos, ax)| == |combos| * |ax.values|
    decreases |combos|
  {
    if combos != [] {
      ExtendSize(combos[1..], ax);
      assert |combos| * |ax.values| == |ax.values| + |combos[1..]| * |ax.values|;
    }
  }

  /** The list runs through the last axis fastest: entry k * n + j is entry k of the
      list for the other axes with value j of the last one. */
  lemma LastAxisFastest(axes: seq<Axis>, k: nat, j: nat)
    requires axes != [] && k < |Product(axes[..|axes| - 1])| && j < |axes[|axes| - 1].values|
    ensures var init, ax := Product(axes[..|axes| - 1]), axes[|axes| - 1];
      && |Product(axes)| == |init| * |ax.values| && k * |ax.values| + j < |Product(axes)|
      && Product(axes)[k * |ax.values| + j] == init[k][ax.name := ax.values[j]]
  {
    ExtendAt(Product(axes[..|axes| - 1]), axes[|axes| - 1], k, j);
  }

  // ----- what is listed

  lemma NothingExtended(ax: Axis)
    ensures Extend([], ax) == []
  {
  }

  /** `m` is `c` with one more value, on the given axis. */
  ghost predicate Extends(c: Combo, ax: Axis, m: Combo) {
    exists v :: v in ax.values && m == c[ax.name := v]
  }

  lemma RowMembers(c: Combo, ax: Axis, m: Combo)
    ensures m in Row(c, ax) <==> Extends(c, ax, m)
  {
    var row := Row(c, ax);
    if m in row {
      var j :| 0 <= j < |row| && row[j] == m;
      assert ax.values[j] in ax.values && m == c[ax.name := ax.values[j]];
    }
    if Extends(c, ax, m) {
      var v :| v in ax.values && m == c[ax.name := v];
      var j :| 0 <= j < |ax.values| && ax.values[j] == v;
      assert row[j] == m;
    }
  }

  lemma {:induction false} ExtendMembers(combos: seq<Combo>, ax: Axis, m: Combo)
    ensures m in Extend(combos, ax) <==> exists c :: c in combos && Extends(c, ax, m)
    decreases |combos|
  {
    hide Extends, Row;
    if combos != [] {
      ExtendMembers(combos[1..], ax, m);
      assert combos == [combos[0]] + combos[1..];
      RowMembers(combos[0], ax, m);
    }
  }

  /** Every combination of axis values is listed, and nothing else. */
  lemma {:induction false} MatrixIsComplete(axes: seq<Axis>, m: Combo)
    requires DistinctAxes(axes)
    ensures m in Product(axes) <==> Chooses(axes, m)
    decreases |axes|
  {
    hide Extend, Chooses;
    if axes == [] {
      NoChoice(m);
    } else {
      var init, ax := axes[..|axes| - 1], axes[|axes| - 1];
      ExtendMembers(Product(init), ax, m);
      if m in Product(axes) {
        var c :| c in Product(init) && Extends(c, ax, m);
        var v :| v in ax.values && m == c[ax.name := v];
        MatrixIsComplete(init, c);
        ChoiceGrows(axes, c, v);
      }
      if Chooses(axes, m) {
        var c := m - {ax.name};
        ChoiceShrinks(axes, m);
        MatrixIsComplete(init, c);
        assert m == c[ax.name := m[ax.name]];
        assert Extends(c, ax, m);
      }
    }
  }

  lemma NoChoice(m: Combo)
    ensures Chooses([], m) <==> m == map[]
  {
  }

  lemma ChoiceGrows(axes: seq<Axis>, c: Combo, v: string)
    requires axes != [] && DistinctAxes(axes) && v in axes[|axes| - 1].values && Chooses(axes[..|axes| - 1], c)
    ensures Chooses(axes, c[axes[|axes| - 1].name := v])
  {
    var n := |axes| - 1;
    var init, m := axes[..n], c[axes[n].name := v];
    forall i | 0 <= i < |axes| ensures axes[i].name in m && m[axes[i].name] in axes[i].values {
      if i < n { assert axes[i] == init[i]; }
    }
    forall x | x in m ensures exists i :: 0 <= i < |axes| && axes[i].name == x {
      if x != axes[n].name { var i :| 0 <= i < |init| && init[i].name == x; assert axes[i].name == x; }
    }
  }

  lemma ChoiceShrinks(axes: seq<Axis>, m: Combo)
    requires axes != [] && DistinctAxes(axes) && Chooses(axes, m)
    ensures Chooses(axes[..|axes| - 1], m - {axes[|axes| - 1].name})
    ensures axes[|axes| - 1].name in m && m[axes[|axes| - 1].name] in axes[|axes| - 1].values
  {
    var n := |axes| - 1;
    var init, c := axes[..n], m - {axes[n].name};
    forall i | 0 <= i < |init| ensures init[i].name in c && c[init[i].name] in init[i].values {
      assert init[i] == axes[i] && axes[i].name != axes[n].name;
    }
    forall x | x in c ensures exists i :: 0 <= i < |init| && init[i].name == x {
      var i :| 0 <= i < |axes| && axes[i].name == x;
      assert init[i].name == x;
    }
  }

  lemma RowsApart(c: Combo, d: Combo, ax: Axis, m: Combo)
    requires ax.name !in c && ax.name !in d && c != d
    ensures !(m in Row(c, ax) && m in Row(d, ax))
  {
    RowMembers(c, ax, m);
    RowMembers(d, ax, m);
    assert Extends(c, ax, m) ==> c == m - {ax.name};
    assert Extends(d, ax, m) ==> d == m - {ax.name};
  }

  lemma RowDistinct(c: Combo, ax: Axis)
    ensures Distinct(Row(c, ax)) <==> Distinct(ax.values)
  {
    var row := Row(c, ax);
    assert forall i :: 0 <= i < |row| ==> row[i] == c[ax.name := ax.values[i]] && row[i][ax.name] == ax.values[i];
  }

  /** Two combinations of the list extend to a common one exactly when they are equal. */
  lemma RowMeetsRest(c: Combo, rest: seq<Combo>, ax: Axis)
    requires ax.values != [] && ax.name !in c && forall d :: d in rest ==> ax.name !in d
    ensures (exists m :: m in Row(c, ax) && m in Extend(rest, ax)) <==> c in rest
  {
    hide Row;
    if c in rest {
      var m := c[ax.name := ax.values[0]];
      assert ax.values[0] in ax.values;
      assert Extends(c, ax, m);
      RowMembers(c, ax, m);
      ExtendMembers(rest, ax, m);
    }
    forall m | m in Row(c, ax) && m in Extend(rest, ax) ensures c in rest {
      ExtendMembers(rest, ax, m);
      var d :| d in rest && Extends(d, ax, m);
      RowMembers(d, ax, m);
      if c != d { RowsApart(c, d, ax, m); }
    }
  }

  lemma {:induction false} ExtendDistinctExactlyWhen(combos: seq<Combo>, ax: Axis)
    requires combos != [] && ax.values != [] && forall c :: c in combos ==> ax.name !in c
    ensures Distinct(Extend(combos, ax)) <==> Distinct(combos) && Distinct(ax.values)
    decreases |combos|
  {
    var c, rest := combos[0], combos[1..];
    assert combos == [c] + rest;
    ConcatDistinct([c], rest);
    assert Distinct([c]);
    ConcatDistinct(Row(c, ax), Extend(rest, ax));
    RowDistinct(c, ax);
    RowMeetsRest(c, rest, ax);
    hide Distinct, Row;
    if rest == [] { assert Extend(rest, ax) == [] && Extend(combos, ax) == Row(c, ax); }
    else { ExtendDistinctExactlyWhen(rest, ax); }
  }

  lemma {:induction false} ProductIsThere(axes: seq<Axis>)
    requires forall i :: 0 <= i < |axes| ==> axes[i].values != []
    ensures Product(axes) != []
    decreases |axes|
  {
    if axes != [] { ProductIsThere(axes[..|axes| - 1]); }
  }

  /** ... and nothing is listed twice exactly when no axis repeats a value.  An empty
      axis is refused before. */
  lemma {:induction false} NoRepeatsExactlyWhen(axes: seq<Axis>)
    requires DistinctAxes(axes) && forall i :: 0 <= i < |axes| ==> axes[i].values != []
    ensures Distinct(Product(axes)) <==> forall i :: 0 <= i < |axes| ==> Distinct(axes[i].values)
    decreases |axes|
  {
    if axes != [] {
      var n := |axes| - 1;
      var init := axes[..n];
      NoRepeatsExactlyWhen(init);
      forall c | c in Product(init) ensures axes[n].name !in c {
        MatrixIsComplete(init, c);
        assert forall i :: 0 <= i < n ==> init[i].name != axes[n].name;
      }
      ProductIsThere(init);
      ExtendDistinctExactlyWhen(Product(init), axes[n]);
      hide Distinct;
      assert forall i :: 0 <= i < n ==> init[i] == axes[i];
    }
  }

  // ----- slugs

  /** The duplicate-slug check of detectForEachExpansions. */
  method SlugsClash(slugs: seq<string>) returns (clash: bool)
    ensures clash <==> !Distinct(slugs)
  {
    var seen: map<string, nat> := map[];
    for i := 0 to |slugs|
      invariant Distinct(slugs[..i])
      invariant forall s :: s in seen <==> s in slugs[..i]
    {
      assert slugs[..i + 1] == slugs[..i] + [slugs[i]];
      if slugs[i] in seen {
        var k :| 0 <= k < i && slugs[..i][k] == slugs[i];
        assert slugs[k] == slugs[i];
        return true;
      }
      seen := seen[slugs[i] := i];
    }
    assert slugs[..|slugs|] == slugs;
    return false;
  }
}
