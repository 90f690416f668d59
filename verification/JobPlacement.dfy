/** When the slots of a pipeline put every for_each instance where its block stood
    (pikoci/helper.go:1211-1239). */
module JobPlacement {
  import opened JobOrder

  ghost predicate DistinctBases(slots: seq<Slot>) {
    forall i, j :: 0 <= i < j < |slots| && slots[i].Expanded? && slots[j].Expanded? ==> slots[i].base != slots[j].base
  }

  /** Every for_each block has instances; an empty one is refused earlier. */
  ghost predicate Nonempty(slots: seq<Slot>) {
    forall i :: 0 <= i < |slots| && slots[i].Expanded? ==> slots[i].slugs != []
  }

  lemma {:induction false} OfBaseConcat(a: seq<Instance>, c: seq<Instance>, base: string)
    ensures OfBase(a + c, base) == OfBase(a, base) + OfBase(c, base)
    decreases |c|
  {
    if c == [] {
      assert a + c == a;
    } else {
      var n := |c| - 1;
      assert (a + c)[..|a + c| - 1] == a + c[..n];
      OfBaseConcat(a, c[..n], base);
    }
  }

  lemma {:induction false} OfOneBase(insts: seq<Instance>, b: string, base: string)
    requires forall i :: 0 <= i < |insts| ==> insts[i].base == b
    ensures OfBase(insts, base) == if b == base then Names(insts) else []
    decreases |insts|
  {
    if insts != [] {
      OfOneBase(insts[..|insts| - 1], b, base);
    }
  }

  /** What one more slot adds to the instances of a base. */
  lemma OfBaseStep(slots: seq<Slot>, base: string)
    requires slots != []
    ensures OfBase(AllInstances(slots), base) == OfBase(AllInstances(Init(slots)), base) +
      match End(slots) case Regular(_) => [] case Expanded(b, ss) => if b == base then Names(Instances(b, ss)) else []
  {
    match End(slots) {
      case Regular(_) =>
        assert AllInstances(Init(slots)) + [] == AllInstances(Init(slots));
      case Expanded(b, ss) =>
        OfBaseConcat(AllInstances(Init(slots)), Instances(b, ss), base);
        OfOneBase(Instances(b, ss), b, base);
    }
  }

  lemma {:induction false} UnusedBase(slots: seq<Slot>, base: string)
    requires forall i :: 0 <= i < |slots| && slots[i].Expanded? ==> slots[i].base != base
    ensures OfBase(AllInstances(slots), base) == []
    decreases |slots|
  {
    if slots != [] {
      hide AllInstances;
      OfBaseStep(slots, base);
      UnusedBase(Init(slots), base);
    }
  }

  lemma {:induction false} OwnInstancesOnly(slots: seq<Slot>, i: nat)
    requires DistinctBases(slots) && i < |slots| && slots[i].Expanded?
    ensures OfBase(AllInstances(slots), slots[i].base) == Names(Instances(slots[i].base, slots[i].slugs))
    decreases |slots|
  {
    hide AllInstances, OfBase;
    OfBaseStep(slots, slots[i].base);
    if i == |slots| - 1 { UnusedBase(Init(slots), slots[i].base); } else { OwnInstancesOnly(Init(slots), i); }
  }

  lemma {:induction false} PlacedInPlace(slots: seq<Slot>, n: nat)
    requires DistinctBases(slots) && n <= |slots|
    ensures Placed(slots[..n], AllInstances(slots)) == InPlace(slots[..n])
    decreases n
  {
    if n > 0 {
      hide AllInstances, OfBase;
      assert Init(slots[..n]) == slots[..n - 1];
      PlacedInPlace(slots, n - 1);
      if slots[n - 1].Expanded? { OwnInstancesOnly(slots, n - 1); }
    }
  }

  lemma {:induction false} AtLeastOwn(slots: seq<Slot>, i: nat)
    requires i < |slots| && slots[i].Expanded?
    ensures |OfBase(AllInstances(slots), slots[i].base)| >= |slots[i].slugs|
    decreases |slots|
  {
    hide AllInstances, OfBase;
    OfBaseStep(slots, slots[i].base);
    if i < |slots| - 1 { AtLeastOwn(Init(slots), i); }
  }

  lemma {:induction false} AtLeastBoth(slots: seq<Slot>, i: nat, j: nat)
    requires i < j < |slots| && slots[i].Expanded? && slots[j].Expanded? && slots[i].base == slots[j].base
    ensures |OfBase(AllInstances(slots), slots[i].base)| >= |slots[i].slugs| + |slots[j].slugs|
    decreases |slots|
  {
    hide AllInstances, OfBase;
    OfBaseStep(slots, slots[i].base);
    if j < |slots| - 1 { AtLeastBoth(Init(slots), i, j); } else { AtLeastOwn(Init(slots), i); }
  }

  /** With a repeated base the list gets longer than it should. */
  lemma {:induction false} RepeatedBaseGrows(slots: seq<Slot>, i: nat, j: nat, n: nat)
    requires i < j < |slots| && slots[i].Expanded? && slots[j].Expanded? && slots[i].base == slots[j].base
    requires slots[i].slugs != [] && n <= |slots|
    ensures |Placed(slots[..n], AllInstances(slots))| >= |InPlace(slots[..n])| + if j < n then 1 else 0
    decreases n
  {
    if n > 0 {
      hide AllInstances, OfBase;
      assert Init(slots[..n]) == slots[..n - 1];
      RepeatedBaseGrows(slots, i, j, n - 1);
      if slots[n - 1].Expanded? {
        AtLeastOwn(slots, n - 1);
        if n - 1 == j { AtLeastBoth(slots, i, j); }
      }
    }
  }

  /** Instances replace their block in place exactly when no two for_each blocks
      share a name. */
  lemma InPlaceExactlyWhenBasesDiffer(slots: seq<Slot>)
    requires Nonempty(slots)
    ensures Placed(slots, AllInstances(slots)) == InPlace(slots) <==> DistinctBases(slots)
  {
    assert slots[..|slots|] == slots;
    if DistinctBases(slots) {
      PlacedInPlace(slots, |slots|);
    } else {
      var i, j :| 0 <= i < j < |slots| && slots[i].Expanded? && slots[j].Expanded? && slots[i].base == slots[j].base;
      RepeatedBaseGrows(slots, i, j, |slots|);
    }
  }

  /** The failing case is reached: two for_each blocks named alike pass the name
      check when their keys differ. */
  lemma RepeatedBaseIsAccepted(x: string, y: string, base: string)
    requires x != y
    ensures var slots := [Expanded(base, [x]), Expanded(base, [y])];
      !NameClash(Regulars(slots), AllInstances(slots)) && Placed(slots, AllInstances(slots)) != InPlace(slots)
  {
    var slots := [Expanded(base, [x]), Expanded(base, [y])];
    InPlaceExactlyWhenBasesDiffer(slots);
    assert slots[0].base == slots[1].base;
    var a, b := Instances(base, [x]), Instances(base, [y]);
    assert Init(slots) == [slots[0]] && Init(Init(slots)) == [];
    assert AllInstances([slots[0]]) == a;
    assert AllInstances(slots) == a + b;
    assert Regulars([slots[0]]) == [];
    assert Regulars(slots) == [];
    var p := base + "--";
    assert (p + x)[|p|..] == x && (p + y)[|p|..] == y;
  }
}
