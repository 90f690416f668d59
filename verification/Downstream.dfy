/** When a finished job sets off another one (evaluateJobDownstream,
    pikoci/builds.go:698-764, and the query behind it,
    pikoci/mysql/build.go:434-486). */
module Downstream {
  import opened Wrappers
  import opened Reachability
  import opened Collections

  /** A build: whether it succeeded (or ended in a warning), the version each get
      step used, and the version it was created for. */
  datatype Record = Record(succeeded: bool, gets: map<string, nat>, version: nat)

  type History = map<string, seq<Record>>

  predicate Used(h: History, n: string, step: string, v: nat) {
    n in h && exists b | b in h[n] :: b.succeeded && step in b.gets && b.gets[step] == v
  }

  /** The downstream job has no build for `v`, and `v` is above its baseline. */
  predicate Unbuilt(h: History, downstream: string, baseline: Option<nat>, v: nat) {
    && (downstream in h ==> forall b | b in h[downstream] :: b.version != v)
    && (baseline.Some? ==> v > baseline.value)
  }

  function UsedBy(h: History, names: seq<string>, step: string, v: nat): set<string> {
    set n | n in names && Used(h, n, step, v)
  }

  /** The condition of the query: it counts distinct names and compares the count
      with the length of the list. */
  predicate Qualifies(h: History, names: seq<string>, downstream: string, step: string, baseline: Option<nat>, v: nat) {
    |UsedBy(h, names, step, v)| == |names| && Unbuilt(h, downstream, baseline, v)
  }

  ghost predicate NewestReady(h: History, names: seq<string>, downstream: string, step: string,
                              baseline: Option<nat>, v: nat) {
    && Qualifies(h, names, downstream, step, baseline, v)
    && forall w: nat :: Qualifies(h, names, downstream, step, baseline, w) ==> w <= v
  }

  lemma QualifiedWasUsed(h: History, names: seq<string>, step: string, v: nat)
    requires names != [] && |UsedBy(h, names, step, v)| == |names|
    ensures exists n :: n in names && Used(h, n, step, v)
  {
    var n :| n in UsedBy(h, names, step, v);
  }

  // ----- what the query asks for, said about the builds themselves

  /** Every job listed has a successful build that used the version, none is listed
      twice, no build of the downstream job is for the version, whatever became of it,
      and the version is above the baseline. */
  ghost predicate Due(h: History, names: seq<string>, downstream: string, step: string, baseline: Option<nat>, v: nat) {
    && Distinct(names)
    && (forall n :: n in names ==>
          n in h && exists b :: b in h[n] && b.succeeded && step in b.gets && b.gets[step] == v)
    && (downstream in h ==> forall b :: b in h[downstream] ==> b.version != v)
    && (baseline.Some? ==> baseline.value < v)
  }

  ghost predicate NewestDue(h: History, names: seq<string>, downstream: string, step: string, baseline: Option<nat>,
                            v: nat) {
    && Due(h, names, downstream, step, baseline, v)
    && forall w: nat :: Due(h, names, downstream, step, baseline, w) ==> w <= v
  }

  lemma QualifiesIsDue(h: History, names: seq<string>, downstream: string, step: string, baseline: Option<nat>, v: nat)
    ensures Qualifies(h, names, downstream, step, baseline, v) <==> Due(h, names, downstream, step, baseline, v)
  {
    CountReaches(h, names, step, v);
  }

  /** The versions any build of the jobs listed has used in the step. */
  function Listed(h: History, names: seq<string>, step: string): set<nat> {
    set n, b | n in names && n in h && b in h[n] && step in b.gets :: b.gets[step]
  }

  lemma QualifiedIsListed(h: History, names: seq<string>, downstream: string, step: string, baseline: Option<nat>,
                          v: nat)
    requires names != [] && Qualifies(h, names, downstream, step, baseline, v)
    ensures v in Listed(h, names, step)
  {
    QualifiedWasUsed(h, names, step, v);
  }

  /** The highest version that is due, or none exactly when there is none. */
  method FindReadyDownstreamVersion(h: History, names: seq<string>, downstream: string, step: string,
                                    baseline: Option<nat>)
    returns (r: Option<nat>)
    requires names != []
    ensures r.None? ==> forall v: nat :: !Qualifies(h, names, downstream, step, baseline, v)
    ensures r.Some? ==> NewestReady(h, names, downstream, step, baseline, r.value)
    ensures r.None? ==> forall v: nat :: !Due(h, names, downstream, step, baseline, v)
    ensures r.Some? ==> NewestDue(h, names, downstream, step, baseline, r.value)
  {
    hide Due, Qualifies, Listed;
    var all := Listed(h, names, step);
    r := None;
    var rest := all;
    while rest != {}
      invariant rest <= all
      invariant r.Some? ==> Qualifies(h, names, downstream, step, baseline, r.value)
      invariant forall v :: v in all && v !in rest && Qualifies(h, names, downstream, step, baseline, v) ==>
        r.Some? && v <= r.value
    {
      var v :| v in rest;
      if Qualifies(h, names, downstream, step, baseline, v) && (r.None? || v > r.value) { r := Some(v); }
      rest := rest - {v};
    }
    forall v: nat
      ensures Qualifies(h, names, downstream, step, baseline, v) <==> Due(h, names, downstream, step, baseline, v)
      ensures Qualifies(h, names, downstream, step, baseline, v) ==> v in all
    {
      QualifiesIsDue(h, names, downstream, step, baseline, v);
      if Qualifies(h, names, downstream, step, baseline, v) {
        QualifiedIsListed(h, names, downstream, step, baseline, v);
      }
    }
  }

  /** Where no build listed succeeded, nothing is due. */
  lemma FailuresSetOffNothing(h: History, names: seq<string>, downstream: string, step: string, baseline: Option<nat>,
                              v: nat)
    requires names != [] && forall n, b :: n in names && n in h && b in h[n] ==> !b.succeeded
    ensures !Qualifies(h, names, downstream, step, baseline, v)
  {
    QualifiesIsDue(h, names, downstream, step, baseline, v);
    assert names[0] in names;
  }

  /** Both histories have the same successful builds of the jobs listed. */
  ghost predicate SameSuccesses(h: History, k: History, names: seq<string>) {
    forall n, b: Record :: n in names && b.succeeded ==> ((n in h && b in h[n]) <==> (n in k && b in k[n]))
  }

  /** So adding or removing builds of those jobs that did not succeed changes no answer;
      of the downstream job only the versions of its builds count. */
  lemma FailuresChangeNothing(h: History, k: History, names: seq<string>, downstream: string, step: string,
                              baseline: Option<nat>, v: nat)
    requires SameSuccesses(h, k, names)
    requires (exists b :: downstream in h && b in h[downstream] && b.version == v) <==>
             (exists b :: downstream in k && b in k[downstream] && b.version == v)
    ensures Qualifies(h, names, downstream, step, baseline, v) <==> Qualifies(k, names, downstream, step, baseline, v)
  {
    QualifiesIsDue(h, names, downstream, step, baseline, v);
    QualifiesIsDue(k, names, downstream, step, baseline, v);
    hide Qualifies;
  }

  // ----- what the counting comes to

  /** The count reaches the length of the list exactly when no name is repeated and
      every name used the version. */
  lemma CountReaches(h: History, names: seq<string>, step: string, v: nat)
    ensures |UsedBy(h, names, step, v)| == |names| <==>
      Distinct(names) && forall n :: n in names ==> Used(h, n, step, v)
  {
    hide Used;
    ElementsCount(names);
    SubsetSize(UsedBy(h, names, step, v), Elements(names));
    if |UsedBy(h, names, step, v)| == |names| {
      forall n | n in names ensures Used(h, n, step, v) { assert n in Elements(names); }
    }
    if forall n :: n in names ==> Used(h, n, step, v) { assert UsedBy(h, names, step, v) == Elements(names); }
  }

  /** No name is listed twice, and no instance beside its own group. */
  ghost predicate NoOverlap(jobs: seq<Job>, passed: seq<string>) {
    && Distinct(passed)
    && forall g, p :: g in passed && p in passed && !IsGroup(jobs, p) ==> !InGroup(jobs, g, p)
  }

  lemma {:induction false} InstancesDistinct(jobs: seq<Job>, g: string)
    requires DistinctNames(jobs) && g != ""
    ensures Distinct(InstancesOf(jobs, g))
    decreases |jobs|
  {
    if jobs != [] {
      var init, last := jobs[..|jobs| - 1], jobs[|jobs| - 1];
      InstancesDistinct(init, g);
      InstanceMembers(init, g, last.name);
      assert forall k :: 0 <= k < |init| ==> init[k].name != last.name;
      ConcatDistinct(InstancesOf(init, g), [last.name]);
    }
  }

  /** Two names stand for a common job exactly when they are equal or one is an
      instance of the other. */
  lemma NamesMeet(jobs: seq<Job>, p: string, q: string)
    requires DistinctNames(jobs)
    ensures (exists n :: n in ExpandName(jobs, p) && n in ExpandName(jobs, q)) <==>
      || p == q
      || (IsGroup(jobs, p) && !IsGroup(jobs, q) && InGroup(jobs, p, q))
      || (IsGroup(jobs, q) && !IsGroup(jobs, p) && InGroup(jobs, q, p))
  {
    forall x, n ensures n in ExpandName(jobs, x) <==> if IsGroup(jobs, x) then InGroup(jobs, x, n) else n == x {
      if x != "" { InstanceMembers(jobs, x, n); }
    }
    forall n ensures p != q ==> !(InGroup(jobs, p, n) && InGroup(jobs, q, n)) {
      if p != q { OneGroupEach(jobs, p, q, n); }
    }
    if p == q && IsGroup(jobs, p) {
      var j :| j in jobs && j.group == p;
      assert j.name in ExpandName(jobs, p);
    } else if !IsGroup(jobs, p) && (p == q || InGroup(jobs, q, p)) {
      assert p in ExpandName(jobs, p);
    } else if !IsGroup(jobs, q) && InGroup(jobs, p, q) {
      assert q in ExpandName(jobs, q);
    }
  }

  lemma OneGroupEach(jobs: seq<Job>, p: string, q: string, n: string)
    requires DistinctNames(jobs) && p != q
    ensures !(InGroup(jobs, p, n) && InGroup(jobs, q, n))
  {
  }

  lemma {:induction false} ExpansionDistinctExactlyWhen(jobs: seq<Job>, passed: seq<string>)
    requires DistinctNames(jobs)
    ensures Distinct(Expansion(jobs, passed)) <==> NoOverlap(jobs, passed)
    decreases |passed|
  {
    if passed != [] {
      hide Distinct, InGroup, IsGroup, DistinctNames;
      var init, p := passed[..|passed| - 1], passed[|passed| - 1];
      assert passed == init + [p];
      ExpansionDistinctExactlyWhen(jobs, init);
      ConcatDistinct(Expansion(jobs, init), ExpandName(jobs, p));
      NameDistinct(jobs, p);
      MeetsExactlyWhen(jobs, init, p);
      OverlapStep(jobs, init, p);
    } else {
      assert Distinct(passed);
    }
  }

  lemma NameDistinct(jobs: seq<Job>, p: string)
    requires DistinctNames(jobs)
    ensures Distinct(ExpandName(jobs, p))
  {
    if IsGroup(jobs, p) { InstancesDistinct(jobs, p); }
  }

  /** `p` clashes with a name already listed. */
  ghost predicate Clashes(jobs: seq<Job>, init: seq<string>, p: string) {
    exists q :: q in init &&
      (|| q == p
       || (IsGroup(jobs, p) && !IsGroup(jobs, q) && InGroup(jobs, p, q))
       || (IsGroup(jobs, q) && !IsGroup(jobs, p) && InGroup(jobs, q, p)))
  }

  lemma MeetsExactlyWhen(jobs: seq<Job>, init: seq<string>, p: string)
    requires DistinctNames(jobs)
    ensures (exists n :: n in Expansion(jobs, init) && n in ExpandName(jobs, p)) <==> Clashes(jobs, init, p)
  {
    hide InGroup, IsGroup, DistinctNames;
    forall n ensures n in Expansion(jobs, init) <==> exists q :: q in init && n in ExpandName(jobs, q) {
      ExpansionFrom(jobs, init, n);
    }
    forall q | q in init { NamesMeet(jobs, q, p); }
  }

  lemma {:induction false} ExpansionFrom(jobs: seq<Job>, passed: seq<string>, n: string)
    ensures n in Expansion(jobs, passed) <==> exists q :: q in passed && n in ExpandName(jobs, q)
    decreases |passed|
  {
    if passed != [] {
      hide ExpandName;
      var init := passed[..|passed| - 1];
      assert passed == init + [passed[|passed| - 1]];
      ExpansionFrom(jobs, init, n);
    }
  }

  lemma OverlapStep(jobs: seq<Job>, init: seq<string>, p: string)
    ensures NoOverlap(jobs, init + [p]) <==> NoOverlap(jobs, init) && !Clashes(jobs, init, p)
  {
    ConcatDistinct(init, [p]);
    assert Distinct([p]);
    hide Distinct;
    var all := init + [p];
    assert forall q :: q in all <==> q in init || q == p;
    assert forall g, x :: InGroup(jobs, g, x) ==> IsGroup(jobs, g);
  }

  /** A version is ready exactly when every job the list means has used it, the job
      has no build for it yet, and the list names no job twice, be it by its own
      name and by that of its group. */
  lemma ReadyExactlyWhen(h: History, jobs: seq<Job>, passed: seq<string>, downstream: string, step: string,
                         baseline: Option<nat>, v: nat)
    requires DistinctNames(jobs)
    ensures Qualifies(h, Expansion(jobs, passed), downstream, step, baseline, v) <==>
      && NoOverlap(jobs, passed)
      && (forall n :: Means(jobs, passed, n) ==> Used(h, n, step, v))
      && Unbuilt(h, downstream, baseline, v)
  {
    hide Means, Used, Unbuilt, NoOverlap, Distinct;
    var names := Expansion(jobs, passed);
    CountReaches(h, names, step, v);
    ExpansionDistinctExactlyWhen(jobs, passed);
    forall n ensures n in names <==> Means(jobs, passed, n) { ExpansionMembers(jobs, passed, n); }
  }

  // ----- the whole decision

  ghost predicate Triggering(g: GetStep) { g.passed != [] && g.trigger }

  ghost predicate Relevant(jobs: seq<Job>, j: Job, completed: string) {
    exists g :: g in GetSteps(j) && Triggering(g) && Referenced(jobs, completed, g.passed)
  }

  /** What the repositories hold: builds, pinned versions of resources, and the
      baselines of the jobs that have one. */
  datatype Facts = Facts(history: History, pins: map<string, Option<nat>>, baselines: map<string, nat>)

  function BaselineOf(f: Facts, j: Job): Option<nat> {
    if j.name in f.baselines then Some(f.baselines[j.name]) else None
  }

  /** Version `v` would be used for step `g` of job `j`. */
  ghost predicate Supplies(f: Facts, jobs: seq<Job>, j: Job, g: GetStep, v: nat) {
    && NewestReady(f.history, Expansion(jobs, g.passed), j.name, g.name, BaselineOf(f, j), v)
    && g.resource in f.pins && (f.pins[g.resource].Some? ==> f.pins[g.resource].value == v)
  }

  datatype Candidate = Candidate(step: string, version: nat)

  method IsRelevant(completed: string, j: Job, jobs: seq<Job>) returns (r: bool)
    ensures r == Relevant(jobs, j, completed)
  {
    hide Referenced;
    var gs := GetSteps(j);
    for i := 0 to |gs|
      invariant forall k :: 0 <= k < i ==> !(Triggering(gs[k]) && Referenced(jobs, completed, gs[k].passed))
    {
      if gs[i].passed != [] && gs[i].trigger {
        var hit := JobReferencedInPassed(completed, gs[i].passed, jobs);
        if hit { assert gs[i] in gs; return true; }
      }
    }
    return false;
  }

  lemma OneVersionSupplies(f: Facts, jobs: seq<Job>, j: Job, g: GetStep, v: nat, w: nat)
    requires NewestReady(f.history, Expansion(jobs, g.passed), j.name, g.name, BaselineOf(f, j), v)
    requires Supplies(f, jobs, j, g, w)
    ensures v == w
  {
  }

  /** One get step: the version it would use, if any. */
  method SupplyFor(f: Facts, jobs: seq<Job>, j: Job, g: GetStep) returns (r: Option<nat>)
    requires g.passed != []
    ensures r.Some? ==> Supplies(f, jobs, j, g, r.value)
    ensures r.None? ==> forall v: nat :: !Supplies(f, jobs, j, g, v)
  {
    hide Expansion, Qualifies;
    var names := ResolvePassedJobNames(g.passed, jobs);
    ListMeansSomething(jobs, g.passed);
    r := FindReadyDownstreamVersion(f.history, names, j.name, g.name, BaselineOf(f, j));
    if r.None? || g.resource !in f.pins { return None; }
    if f.pins[g.resource].Some? && f.pins[g.resource].value != r.value {
      forall v: nat ensures !Supplies(f, jobs, j, g, v) {
        if Supplies(f, jobs, j, g, v) { OneVersionSupplies(f, jobs, j, g, r.value, v); }
      }
      return None;
    }
  }

  lemma ListMeansSomething(jobs: seq<Job>, passed: seq<string>)
    requires passed != []
    ensures Expansion(jobs, passed) != []
  {
    var p := passed[|passed| - 1];
    if IsGroup(jobs, p) {
      var j :| j in jobs && j.group == p;
      InstanceMembers(jobs, p, j.name);
    }
  }

  ghost predicate HasSupply(f: Facts, jobs: seq<Job>, j: Job, g: GetStep) {
    exists v :: Supplies(f, jobs, j, g, v)
  }

  /** A triggering get step refers to the finished job, and all of them are supplied. */
  ghost predicate Ready(f: Facts, jobs: seq<Job>, j: Job, completed: string) {
    Relevant(jobs, j, completed) && forall g :: g in GetSteps(j) && Triggering(g) ==> HasSupply(f, jobs, j, g)
  }

  /** The same decision, said about builds, pins and baselines: some triggering get step
      lists the finished job or its group, and each of them has a newest version that is
      due and that its resource, if pinned, is pinned to. */
  ghost predicate SetOff(f: Facts, jobs: seq<Job>, j: Job, completed: string) {
    && (exists g :: g in GetSteps(j) && g.passed != [] && g.trigger && Lists(jobs, completed, g.passed))
    && (forall g :: g in GetSteps(j) && g.passed != [] && g.trigger ==> exists v :: ToUse(f, jobs, j, g, v))
  }

  /** The list names the job or the group it is an instance of. */
  ghost predicate Lists(jobs: seq<Job>, n: string, passed: seq<string>) {
    n in passed || exists k :: k in jobs && k.name == n && k.group != "" && k.group in passed
  }

  ghost predicate ToUse(f: Facts, jobs: seq<Job>, j: Job, g: GetStep, v: nat) {
    && NewestDue(f.history, Expansion(jobs, g.passed), j.name, g.name,
                 if j.name in f.baselines then Some(f.baselines[j.name]) else None, v)
    && g.resource in f.pins && (f.pins[g.resource] == None || f.pins[g.resource] == Some(v))
  }

  lemma SuppliesIsToUse(f: Facts, jobs: seq<Job>, j: Job, g: GetStep, v: nat)
    ensures Supplies(f, jobs, j, g, v) <==> ToUse(f, jobs, j, g, v)
  {
    hide Qualifies, Due, Expansion;
    var names := Expansion(jobs, g.passed);
    forall w: nat { QualifiesIsDue(f.history, names, j.name, g.name, BaselineOf(f, j), w); }
  }

  lemma ReadyIsSetOff(f: Facts, jobs: seq<Job>, j: Job, completed: string)
    ensures Ready(f, jobs, j, completed) <==> SetOff(f, jobs, j, completed)
  {
    hide GetSteps, Supplies, ToUse;
    forall g: GetStep ensures HasSupply(f, jobs, j, g) <==> exists v :: ToUse(f, jobs, j, g, v) {
      forall v { SuppliesIsToUse(f, jobs, j, g, v); }
    }
    hide HasSupply;
  }

  ghost predicate Increasing(at: seq<nat>) { forall k, l :: 0 <= k < l < |at| ==> at[k] < at[l] }

  /** `at` lists the places before `n` of the triggering get steps, and `cs` answers each
      of them, in order, with a version to use. */
  ghost predicate Answers(f: Facts, jobs: seq<Job>, j: Job, gs: seq<GetStep>, n: nat, at: seq<nat>,
                          cs: seq<Candidate>) {
    && n <= |gs| && |at| == |cs| && Increasing(at)
    && (forall i :: i in at <==> 0 <= i < n && gs[i].passed != [] && gs[i].trigger)
    && (forall k :: 0 <= k < |at| ==>
          at[k] < n && cs[k].step == gs[at[k]].name && ToUse(f, jobs, j, gs[at[k]], cs[k].version))
  }

  lemma AnswersGrow(f: Facts, jobs: seq<Job>, j: Job, gs: seq<GetStep>, n: nat, at: seq<nat>, cs: seq<Candidate>,
                    v: nat)
    requires n < |gs| && Answers(f, jobs, j, gs, n, at, cs)
    ensures !(gs[n].passed != [] && gs[n].trigger) ==> Answers(f, jobs, j, gs, n + 1, at, cs)
    ensures gs[n].passed != [] && gs[n].trigger && ToUse(f, jobs, j, gs[n], v) ==>
      Answers(f, jobs, j, gs, n + 1, at + [n], cs + [Candidate(gs[n].name, v)])
  {
    hide ToUse;
    assert forall k :: 0 <= k < |at| ==> at[k] in at;
    assert forall i :: i in at + [n] <==> i in at || i == n;
  }

  lemma NothingAnswered(f: Facts, jobs: seq<Job>, j: Job, gs: seq<GetStep>)
    ensures Answers(f, jobs, j, gs, 0, [], [])
  {
  }

  /** The job is set off exactly when one of its triggering get steps refers to the
      job that finished and all of them have a version to use; the candidates answer
      those get steps in order. */
  method FindCandidates(f: Facts, completed: string, j: Job, jobs: seq<Job>)
    returns (r: Option<seq<Candidate>>, ghost at: seq<nat>)
    ensures r.Some? <==> Ready(f, jobs, j, completed)
    ensures r.Some? <==> SetOff(f, jobs, j, completed)
    ensures r.Some? ==> r.value != [] && Answers(f, jobs, j, GetSteps(j), |GetSteps(j)|, at, r.value)
  {
    ReadyIsSetOff(f, jobs, j, completed);
    hide Supplies, Referenced, Answers, GetSteps, SetOff, ToUse;
    at := [];
    var relevant := IsRelevant(completed, j, jobs);
    if !relevant { return None, at; }
    var gs := GetSteps(j);
    var cs: seq<Candidate> := [];
    NothingAnswered(f, jobs, j, gs);
    for i := 0 to |gs|
      invariant Answers(f, jobs, j, gs, i, at, cs)
      invariant forall k :: 0 <= k < i && Triggering(gs[k]) ==> cs != [] && HasSupply(f, jobs, j, gs[k])
    {
      if gs[i].passed != [] && gs[i].trigger {
        var v := SupplyFor(f, jobs, j, gs[i]);
        if v.None? { assert gs[i] in gs; return None, at; }
        SuppliesIsToUse(f, jobs, j, gs[i], v.value);
        AnswersGrow(f, jobs, j, gs, i, at, cs, v.value);
        cs, at := cs + [Candidate(gs[i].name, v.value)], at + [i];
      } else {
        AnswersGrow(f, jobs, j, gs, i, at, cs, 0);
      }
    }
    return Some(cs), at;
  }

  /** The exception is real: a list that names a group and one of its instances is
      never ready, although every job it means has used the version. */
  lemma GroupBesideInstanceIsNeverReady(step: string, v: nat)
    ensures var jobs := [Job("t--x", "t", []), Job("t--y", "t", [])];
      var h := map["t--x" := [Record(true, map[step := v], 0)], "t--y" := [Record(true, map[step := v], 0)]];
      && (forall n :: Means(jobs, ["t", "t--x"], n) ==> Used(h, n, step, v)) && Unbuilt(h, "d", None, v)
      && forall w: nat :: !Qualifies(h, Expansion(jobs, ["t", "t--x"]), "d", step, None, w)
  {
    var jobs := [Job("t--x", "t", []), Job("t--y", "t", [])];
    var b := Record(true, map[step := v], 0);
    var h := map["t--x" := [b], "t--y" := [b]];
    assert b in h["t--x"] && b in h["t--y"];
    assert jobs[0] in jobs && InGroup(jobs, "t", "t--x");
    assert !IsGroup(jobs, "t--x");
    assert "t" in ["t", "t--x"] && "t--x" in ["t", "t--x"];
    assert !NoOverlap(jobs, ["t", "t--x"]);
    forall w: nat ensures !Qualifies(h, Expansion(jobs, ["t", "t--x"]), "d", step, None, w) {
      ReadyExactlyWhen(h, jobs, ["t", "t--x"], "d", step, None, w);
    }
  }
}
