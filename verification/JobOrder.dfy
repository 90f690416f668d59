/** Putting for_each instances where their block stood (pikoci/helper.go:1167-1239):
    the decoder yields the regular jobs, the instances are appended, and slots
    recorded while scanning the text restore the order. */
module JobOrder {
  import opened Wrappers

  /** A job block of the pipeline text: a plain job, or one with for_each or matrix. */
  datatype Slot = Regular(name: string) | Expanded(base: string, slugs: seq<string>)

  datatype Instance = Instance(name: string, base: string)

  function Instances(base: string, slugs: seq<string>): (r: seq<Instance>)
    ensures |r| == |slugs|
    ensures forall i :: 0 <= i < |r| ==> r[i].base == base
  {
    seq(|slugs|, i requires 0 <= i < |slugs| => Instance(base + "--" + slugs[i], base))
  }

  function Names(insts: seq<Instance>): (r: seq<string>)
    ensures |r| == |insts|
  {
    seq(|insts|, i requires 0 <= i < |insts| => insts[i].name)
  }

  function Init(slots: seq<Slot>): seq<Slot> requires slots != [] { slots[..|slots| - 1] }

  function End(slots: seq<Slot>): Slot requires slots != [] { slots[|slots| - 1] }

  /** The promised order: each block replaced by its instances, in place. */
  ghost function InPlace(slots: seq<Slot>): seq<string>
    decreases |slots|
  {
    if slots == [] then []
    else
      var here := match End(slots)
        case Regular(n) => [n]
        case Expanded(b, ss) => seq(|ss|, i requires 0 <= i < |ss| => b + "--" + ss[i]);
      InPlace(Init(slots)) + here
  }

  ghost function Regulars(slots: seq<Slot>): seq<string>
    decreases |slots|
  {
    if slots == [] then []
    else Regulars(Init(slots)) + if End(slots).Regular? then [End(slots).name] else []
  }

  ghost function AllInstances(slots: seq<Slot>): seq<Instance>
    decreases |slots|
  {
    if slots == [] then []
    else
      var here := match End(slots) case Regular(_) => [] case Expanded(b, ss) => Instances(b, ss);
      AllInstances(Init(slots)) + here
  }

  /** The names of the instances of one base. */
  ghost function OfBase(insts: seq<Instance>, base: string): seq<string>
    decreases |insts|
  {
    if insts == [] then []
    else
      var n := |insts| - 1;
      OfBase(insts[..n], base) + if insts[n].base == base then [insts[n].name] else []
  }

  /** The order the slots produce. */
  ghost function Placed(slots: seq<Slot>, insts: seq<Instance>): seq<string>
    decreases |slots|
  {
    if slots == [] then []
    else
      var here := match End(slots) case Regular(n) => [n] case Expanded(b, _) => OfBase(insts, b);
      Placed(Init(slots), insts) + here
  }

  // ----- elaboration

  datatype Block = Block(base: string, index: nat)

  ghost predicate BlocksOf(slots: seq<Slot>, blocks: seq<Block>, n: nat) {
    && n <= |slots|
    && (forall k :: 0 <= k < |blocks| ==>
          blocks[k].index < n && slots[blocks[k].index].Expanded? && slots[blocks[k].index].base == blocks[k].base)
    && (forall i :: 0 <= i < n && slots[i].Expanded? ==>
          exists k :: 0 <= k < |blocks| && blocks[k] == Block(slots[i].base, i))
    && |blocks| + |Regulars(slots[..n])| == n
  }

  /** The for_each blocks with their places. */
  ghost function BlockList(slots: seq<Slot>): seq<Block>
    decreases |slots|
  {
    if slots == [] then []
    else BlockList(Init(slots)) + if End(slots).Expanded? then [Block(End(slots).base, |slots| - 1)] else []
  }

  lemma {:induction false} BlocksListed(slots: seq<Slot>, n: nat)
    requires n <= |slots|
    ensures BlocksOf(slots, BlockList(slots[..n]), n)
    decreases n
  {
    hide BlocksOf;
    if n == 0 {
      NoBlocksYet(slots);
    } else {
      BlocksListed(slots, n - 1);
      assert Init(slots[..n]) == slots[..n - 1];
      assert BlockList(slots[..n - 1]) + [] == BlockList(slots[..n - 1]);
      if slots[n - 1].Regular? { BlockSkipped(slots, BlockList(slots[..n - 1]), n - 1); }
      else { BlockAdded(slots, BlockList(slots[..n - 1]), n - 1); }
    }
  }

  /** The scan that numbers the job blocks. */
  method DetectBlocks(slots: seq<Slot>) returns (regular: seq<string>, insts: seq<Instance>, blocks: seq<Block>)
    ensures regular == Regulars(slots) && insts == AllInstances(slots) && blocks == BlockList(slots)
  {
    regular, insts, blocks := [], [], [];
    for i := 0 to |slots|
      invariant regular == Regulars(slots[..i]) && insts == AllInstances(slots[..i]) && blocks == BlockList(slots[..i])
    {
      assert Init(slots[..i + 1]) == slots[..i];
      match slots[i] {
        case Regular(n) => regular := regular + [n];
        case Expanded(b, ss) =>
          insts := insts + Instances(b, ss);
          blocks := blocks + [Block(b, i)];
      }
    }
    assert slots[..|slots|] == slots;
  }

  lemma NoBlocksYet(slots: seq<Slot>)
    ensures BlocksOf(slots, [], 0)
  {
  }

  lemma BlockSkipped(slots: seq<Slot>, blocks: seq<Block>, i: nat)
    requires BlocksOf(slots, blocks, i) && i < |slots| && slots[i].Regular?
    ensures BlocksOf(slots, blocks, i + 1)
  {
    assert Init(slots[..i + 1]) == slots[..i];
  }

  lemma BlockAdded(slots: seq<Slot>, blocks: seq<Block>, i: nat)
    requires BlocksOf(slots, blocks, i) && i < |slots| && slots[i].Expanded?
    ensures BlocksOf(slots, blocks + [Block(slots[i].base, i)], i + 1)
  {
    var more := blocks + [Block(slots[i].base, i)];
    assert Init(slots[..i + 1]) == slots[..i];
    forall j | 0 <= j < i + 1 && slots[j].Expanded?
      ensures exists k :: 0 <= k < |more| && more[k] == Block(slots[j].base, j)
    {
      if j == i { assert more[|blocks|] == Block(slots[i].base, i); }
      else { var k :| 0 <= k < |blocks| && blocks[k] == Block(slots[j].base, j); assert more[k] == blocks[k]; }
    }
  }

  ghost predicate TakenBefore(regular: seq<string>, insts: seq<Instance>, k: nat)
    requires k < |insts|
  {
    insts[k].name in regular || exists j :: 0 <= j < k && insts[j].name == insts[k].name
  }

  /** An instance would take a name already used. */
  ghost predicate NameClash(regular: seq<string>, insts: seq<Instance>) {
    exists k :: 0 <= k < |insts| && TakenBefore(regular, insts, k)
  }

  ghost predicate Meta(metas: map<string, string>, insts: seq<Instance>, n: nat)
    requires n <= |insts|
  {
    && (forall k :: 0 <= k < n ==> insts[k].name in metas && metas[insts[k].name] == insts[k].base)
    && (forall x :: x in metas ==> exists k :: 0 <= k < n && insts[k].name == x)
  }

  /** Appends the instances, refusing a name already taken. */
  method AppendInstances(regular: seq<string>, insts: seq<Instance>)
    returns (ok: bool, jobs: seq<string>, metas: map<string, string>)
    ensures ok <==> !NameClash(regular, insts)
    ensures ok ==> jobs == regular + Names(insts) && Meta(metas, insts, |insts|)
    ensures ok ==> forall x :: x in regular ==> x !in metas
  {
    hide Meta, NameClash;
    jobs, metas := regular, map[];
    NoMetaYet(insts);
    for k := 0 to |insts|
      invariant jobs == regular + Names(insts[..k]) && Meta(metas, insts, k)
      invariant Clean(regular, insts, k)
    {
      var inst := insts[k];
      if inst.name in jobs {
        ClashFound(regular, insts, k);
        return false, jobs, metas;
      }
      CleanGrows(regular, insts, k);
      MetaGrows(regular, metas, insts, k);
      assert Names(insts[..k + 1]) == Names(insts[..k]) + [inst.name];
      jobs, metas := jobs + [inst.name], metas[inst.name := inst.base];
    }
    assert insts[..|insts|] == insts;
    CleanToTheEnd(regular, insts, metas);
    return true, jobs, metas;
  }

  ghost predicate Clean(regular: seq<string>, insts: seq<Instance>, k: nat)
    requires k <= |insts|
  {
    && (forall i :: 0 <= i < k ==> insts[i].name !in regular)
    && (forall i, j :: 0 <= j < i < k ==> insts[j].name != insts[i].name)
  }

  lemma NoMetaYet(insts: seq<Instance>)
    ensures Meta(map[], insts, 0)
  {
  }

  lemma CleanGrows(regular: seq<string>, insts: seq<Instance>, k: nat)
    requires k < |insts| && Clean(regular, insts, k) && insts[k].name !in regular + Names(insts[..k])
    ensures Clean(regular, insts, k + 1)
  {
    var taken := Names(insts[..k]);
    forall j | 0 <= j < k ensures insts[j].name != insts[k].name {
      assert taken[j] == insts[j].name && taken[j] in regular + taken;
    }
  }

  lemma CleanToTheEnd(regular: seq<string>, insts: seq<Instance>, metas: map<string, string>)
    requires Clean(regular, insts, |insts|) && Meta(metas, insts, |insts|)
    ensures !NameClash(regular, insts) && forall x :: x in regular ==> x !in metas
  {
  }

  lemma ClashFound(regular: seq<string>, insts: seq<Instance>, k: nat)
    requires k < |insts| && insts[k].name in regular + Names(insts[..k])
    ensures NameClash(regular, insts)
  {
    if insts[k].name !in regular {
      var j :| 0 <= j < k && Names(insts[..k])[j] == insts[k].name;
      assert insts[j].name == insts[k].name;
    }
    assert TakenBefore(regular, insts, k);
  }

  lemma MetaGrows(regular: seq<string>, metas: map<string, string>, insts: seq<Instance>, k: nat)
    requires k < |insts| && Meta(metas, insts, k) && Clean(regular, insts, k + 1)
    ensures Meta(metas[insts[k].name := insts[k].base], insts, k + 1)
  {
  }

  ghost predicate Split(byBase: map<string, seq<string>>, insts: seq<Instance>) {
    forall b :: (b in byBase ==> byBase[b] == OfBase(insts, b)) && (b !in byBase ==> OfBase(insts, b) == [])
  }

  /** Splits the job list again, by name. */
  method SplitJobs(regular: seq<string>, insts: seq<Instance>, jobs: seq<string>, metas: map<string, string>)
    returns (regularJobs: seq<string>, byBase: map<string, seq<string>>)
    requires jobs == regular + Names(insts) && Meta(metas, insts, |insts|)
    requires forall x :: x in regular ==> x !in metas
    ensures regularJobs == regular && Split(byBase, insts)
  {
    hide Meta, Split;
    regularJobs, byBase := [], map[];
    var r := |regular|;
    ghost var done: nat := 0;   // instances met so far
    NothingSplit(insts);
    for n := 0 to |jobs|
      invariant done == (if n <= r then 0 else n - r) && done <= |insts|
      invariant regularJobs == if n <= r then regular[..n] else regular
      invariant Split(byBase, insts[..done])
    {
      var hj := jobs[n];
      if n < r {
        assert hj == regular[n] && hj in regular;
      } else {
        assert hj == insts[done].name;
        MetaAt(metas, insts, done);
        SplitGrows(byBase, insts, done);
        done := done + 1;
      }
      if hj in metas {
        var b := metas[hj];
        byBase := byBase[b := (if b in byBase then byBase[b] else []) + [hj]];
      } else {
        regularJobs := regularJobs + [hj];
      }
    }
    assert regular[..r] == regular && insts[..|insts|] == insts;
  }

  lemma MetaAt(metas: map<string, string>, insts: seq<Instance>, k: nat)
    requires k < |insts| && Meta(metas, insts, |insts|)
    ensures insts[k].name in metas && metas[insts[k].name] == insts[k].base
  {
  }

  lemma NothingSplit(insts: seq<Instance>)
    ensures Split(map[], insts[..0])
  {
  }

  lemma SplitGrows(byBase: map<string, seq<string>>, insts: seq<Instance>, k: nat)
    requires k < |insts| && Split(byBase, insts[..k])
    ensures var b := insts[k].base;
      Split(byBase[b := (if b in byBase then byBase[b] else []) + [insts[k].name]], insts[..k + 1])
  {
    assert insts[..k + 1][..k] == insts[..k];
  }

  method ElaborateJobs(slots: seq<Slot>) returns (r: Option<seq<string>>)
    ensures r.None? <==> NameClash(Regulars(slots), AllInstances(slots))
    ensures r.Some? ==> r.value == Placed(slots, AllInstances(slots))
  {
    hide Meta, Split, NameClash, OfBase, AllInstances, BlockList, BlocksOf;
    var regular, insts, blocks := DetectBlocks(slots);
    BlocksListed(slots, |slots|);
    assert slots[..|slots|] == slots;
    BlocksCounted(slots, blocks);
    var ok, jobs, metas := AppendInstances(regular, insts);
    if !ok { return None; }
    var regularJobs, byBase := SplitJobs(regular, insts, jobs, metas);
    var atIndex := PlaceBlocks(slots, insts, blocks, byBase);
    var ordered: seq<string> := [];
    var regularIdx := 0;
    for i := 0 to |regularJobs| + |blocks|
      invariant ordered == Placed(slots[..i], insts) && regularIdx == |Regulars(slots[..i])|
    {
      assert Init(slots[..i + 1]) == slots[..i];
      if i in atIndex {
        ordered := ordered + atIndex[i];
      } else {
        RegularAt(slots, i);
        ordered := ordered + [regularJobs[regularIdx]];
        regularIdx := regularIdx + 1;
      }
    }
    return Some(ordered);
  }

  lemma BlocksCounted(slots: seq<Slot>, blocks: seq<Block>)
    requires BlocksOf(slots, blocks, |slots|)
    ensures |blocks| + |Regulars(slots)| == |slots|
  {
    assert slots[..|slots|] == slots;
  }

  method PlaceBlocks(slots: seq<Slot>, ghost insts: seq<Instance>, blocks: seq<Block>, byBase: map<string, seq<string>>)
    returns (atIndex: map<nat, seq<string>>)
    requires BlocksOf(slots, blocks, |slots|) && Split(byBase, insts)
    ensures forall i :: 0 <= i < |slots| ==> (i in atIndex <==> slots[i].Expanded?)
    ensures forall i :: 0 <= i < |slots| && i in atIndex ==> atIndex[i] == OfBase(insts, slots[i].base)
  {
    hide OfBase, Regulars;
    atIndex := map[];
    for k := 0 to |blocks|
      invariant forall i :: i in atIndex ==>
        i < |slots| && slots[i].Expanded? && atIndex[i] == OfBase(insts, slots[i].base)
      invariant forall j :: 0 <= j < k ==> blocks[j].index in atIndex
    {
      var b := blocks[k].base;
      atIndex := atIndex[blocks[k].index := if b in byBase then byBase[b] else []];
    }
  }

  lemma {:induction false} RegularAt(slots: seq<Slot>, i: nat)
    requires i < |slots| && slots[i].Regular?
    ensures |Regulars(slots[..i])| < |Regulars(slots)| && Regulars(slots)[|Regulars(slots[..i])|] == slots[i].name
    decreases |slots|
  {
    if i == |slots| - 1 {
      assert Init(slots) == slots[..i];
    } else {
      RegularAt(Init(slots), i);
      assert Init(slots)[..i] == slots[..i];
    }
  }
}
