/** What the one-level view of a plan costs triggering (evaluateJobDownstream,
    pikoci/builds.go:698-764, over pikoci/job/job.go:144-160). */
module BuriedTriggers {
  import opened Wrappers
  import opened Reachability
  import opened Downstream
  import opened FlatPlan

  // ----- which jobs can be set off at all

  ghost function MeantBy(jobs: seq<Job>, gs: seq<GetStep>): set<string> {
    set g, n | g in gs && n in Expansion(jobs, g.passed) :: n
  }

  ghost function StepNames(gs: seq<GetStep>): set<string> { set g | g in gs :: g.name }

  ghost function Resources(gs: seq<GetStep>): set<string> { set g | g in gs :: g.resource }

  /** A build that used version 1 in every step. */
  ghost function FullBuild(gs: seq<GetStep>): Record { Record(true, map step | step in StepNames(gs) :: 1, 0) }

  /** Everything the job waits for has used version 1; no pins, no baselines. */
  ghost function AllPassed(jobs: seq<Job>, j: Job): Facts {
    var gs := GetSteps(j);
    Facts(map n | n in MeantBy(jobs, gs) :: [FullBuild(gs)], map r | r in Resources(gs) :: None, map[])
  }

  lemma OnlyVersionOne(jobs: seq<Job>, j: Job, n: string, step: string, v: nat)
    ensures Used(AllPassed(jobs, j).history, n, step, v) ==> v == 1
  {
  }

  lemma PassedIsUsed(jobs: seq<Job>, j: Job, g: GetStep, n: string)
    requires g in GetSteps(j) && Means(jobs, g.passed, n)
    ensures Used(AllPassed(jobs, j).history, n, g.name, 1)
  {
    hide GetSteps, Means, Expansion;
    ExpansionMembers(jobs, g.passed, n);
    var gs := GetSteps(j);
    assert n in MeantBy(jobs, gs) && g.name in StepNames(gs);
    assert FullBuild(gs) in AllPassed(jobs, j).history[n];
  }

  lemma PassedSupplies(jobs: seq<Job>, j: Job, g: GetStep)
    requires DistinctNames(jobs) && g in GetSteps(j) && Triggering(g) && NoOverlap(jobs, g.passed)
    ensures Supplies(AllPassed(jobs, j), jobs, j, g, 1)
  {
    var f, names := AllPassed(jobs, j), Expansion(jobs, g.passed);
    assert g.resource in Resources(GetSteps(j)) && Unbuilt(f.history, j.name, None, 1);
    hide Used, Unbuilt, Means, NoOverlap, GetSteps, Expansion;
    forall n | Means(jobs, g.passed, n) ensures Used(f.history, n, g.name, 1) { PassedIsUsed(jobs, j, g, n); }
    ReadyExactlyWhen(f.history, jobs, g.passed, j.name, g.name, None, 1);
    ListMeansSomething(jobs, g.passed);
    forall w: nat | Qualifies(f.history, names, j.name, g.name, None, w) ensures w <= 1 {
      QualifiedWasUsed(f.history, names, g.name, w);
      var n :| n in names && Used(f.history, n, g.name, w);
      OnlyVersionOne(jobs, j, n, g.name, w);
    }
  }

  lemma SupplyNeedsNoOverlap(f: Facts, jobs: seq<Job>, j: Job, g: GetStep)
    requires DistinctNames(jobs) && HasSupply(f, jobs, j, g)
    ensures NoOverlap(jobs, g.passed)
  {
    var v :| Supplies(f, jobs, j, g, v);
    hide NoOverlap;
    ReadyExactlyWhen(f.history, jobs, g.passed, j.name, g.name, BaselineOf(f, j), v);
  }

  /** A job has a triggering get step in sight, and the list of none of those names a
      job twice. */
  ghost predicate Triggerable(jobs: seq<Job>, j: Job) {
    && (exists g :: g in GetSteps(j) && Triggering(g))
    && (forall g :: g in GetSteps(j) && Triggering(g) ==> NoOverlap(jobs, g.passed))
  }

  /** Some finished job sets `j` off under some facts exactly when `j` is triggerable. */
  lemma CanBeSetOffExactlyWhen(jobs: seq<Job>, j: Job)
    requires DistinctNames(jobs)
    ensures (exists f, c :: Ready(f, jobs, j, c)) <==> Triggerable(jobs, j)
  {
    hide GetSteps, NoOverlap, HasSupply, DistinctNames;
    if f, c :| Ready(f, jobs, j, c) {
      forall g | g in GetSteps(j) && Triggering(g) ensures NoOverlap(jobs, g.passed) {
        SupplyNeedsNoOverlap(f, jobs, j, g);
      }
    }
    if Triggerable(jobs, j) {
      var g :| g in GetSteps(j) && Triggering(g);
      forall h | h in GetSteps(j) && Triggering(h) ensures HasSupply(AllPassed(jobs, j), jobs, j, h) {
        PassedSupplies(jobs, j, h);
        SupplyIs(AllPassed(jobs, j), jobs, j, h, 1);
      }
      assert Referenced(jobs, g.passed[0], g.passed);
      assert Ready(AllPassed(jobs, j), jobs, j, g.passed[0]);
    }
  }

  lemma SupplyIs(f: Facts, jobs: seq<Job>, j: Job, g: GetStep, v: nat)
    requires Supplies(f, jobs, j, g, v)
    ensures HasSupply(f, jobs, j, g)
  {
  }

  // ----- the decision against the one with all get steps in sight

  lemma {:induction false} SameInstances(jobs: seq<Job>, g: string)
    ensures InstancesOf(UnfoldAll(jobs), g) == InstancesOf(jobs, g)
    decreases |jobs|
  {
    if jobs != [] {
      var n := |jobs| - 1;
      SameInstances(jobs[..n], g);
      assert UnfoldAll(jobs)[..n] == UnfoldAll(jobs[..n]);
    }
  }

  lemma {:induction false} SameExpansion(jobs: seq<Job>, passed: seq<string>)
    ensures Expansion(UnfoldAll(jobs), passed) == Expansion(jobs, passed)
    decreases |passed|
  {
    if passed != [] {
      var p := passed[|passed| - 1];
      SameExpansion(jobs, passed[..|passed| - 1]);
      SameIsGroup(jobs, p);
      SameInstances(jobs, p);
    }
  }

  lemma SameReferenced(jobs: seq<Job>, c: string, passed: seq<string>)
    ensures Referenced(UnfoldAll(jobs), c, passed) <==> Referenced(jobs, c, passed)
  {
    var all := UnfoldAll(jobs);
    if j :| j in jobs && j.name == c && j.group != "" && j.group in passed {
      var k :| 0 <= k < |jobs| && jobs[k] == j;
      assert all[k] in all;
    }
    if j :| j in all && j.name == c && j.group != "" && j.group in passed {
      var k :| 0 <= k < |all| && all[k] == j;
      assert jobs[k] in jobs;
    }
  }

  lemma SameSupply(f: Facts, jobs: seq<Job>, j: Job, g: GetStep)
    ensures HasSupply(f, UnfoldAll(jobs), Unfolded(j), g) <==> HasSupply(f, jobs, j, g)
  {
    hide NewestReady, Expansion;
    SameExpansion(jobs, g.passed);
    forall v ensures Supplies(f, UnfoldAll(jobs), Unfolded(j), g, v) <==> Supplies(f, jobs, j, g, v) {}
  }

  /** The decision with all get steps in sight, said about the job as written. */
  lemma ReadyInSight(f: Facts, jobs: seq<Job>, j: Job, c: string)
    ensures Ready(f, UnfoldAll(jobs), Unfolded(j), c) <==>
      && (exists g :: g in AllGets(j.plan) && Triggering(g) && Referenced(jobs, c, g.passed))
      && (forall g :: g in AllGets(j.plan) && Triggering(g) ==> HasSupply(f, jobs, j, g))
  {
    UnfoldedGets(j);
    hide GetSteps, Unfolded, UnfoldAll, HasSupply, Referenced, AllGets, Triggering;
    forall g: GetStep
      ensures HasSupply(f, UnfoldAll(jobs), Unfolded(j), g) <==> HasSupply(f, jobs, j, g)
      ensures Referenced(UnfoldAll(jobs), c, g.passed) <==> Referenced(jobs, c, g.passed)
    {
      SameSupply(f, jobs, j, g);
      SameReferenced(jobs, c, g.passed);
    }
  }

  /** A get step that only a deeper look would find. */
  ghost predicate OutOfSight(j: Job, g: GetStep) { g in AllGets(j.plan) && g !in GetSteps(j) }

  /** All triggering get steps must be ready.  A job that is set off meets that
      exactly when those out of sight have a version too ... */
  lemma TooEarlyExactlyWhen(f: Facts, jobs: seq<Job>, j: Job, c: string)
    requires Ready(f, jobs, j, c)
    ensures Ready(f, UnfoldAll(jobs), Unfolded(j), c) <==>
      forall g :: OutOfSight(j, g) && Triggering(g) ==> HasSupply(f, jobs, j, g)
  {
    ReadyInSight(f, jobs, j, c);
    UnfoldedGets(j);
    hide HasSupply, Referenced, AllGets, GetSteps;
  }

  /** ... and a job that should be set off is, exactly when a triggering get step in
      sight refers to the finished job. */
  lemma MissedExactlyWhen(f: Facts, jobs: seq<Job>, j: Job, c: string)
    requires Ready(f, UnfoldAll(jobs), Unfolded(j), c)
    ensures Ready(f, jobs, j, c) <==> Relevant(jobs, j, c)
  {
    ReadyInSight(f, jobs, j, c);
    UnfoldedGets(j);
    hide HasSupply, Referenced, AllGets, GetSteps;
  }

  /** Set off too early: "deploy" waits for "build" in sight and for "test" out of
      sight, and is set off although "test" never ran. */
  lemma SetOffTooEarly() returns (f: Facts, jobs: seq<Job>, j: Job)
    ensures j in jobs && Ready(f, jobs, j, "build") && !Ready(f, UnfoldAll(jobs), Unfolded(j), "build")
  {
    var seen, unseen := GetStep("src", "git.src", ["build"], true), GetStep("img", "docker.img", ["test"], true);
    j := Job("deploy", "", [Get(seen), If([Branch([InParallel([Get(unseen)])])])]);
    jobs := [Job("build", "", []), Job("test", "", []), j];
    f := AllPassed(jobs, j);
    TwoGets(seen, unseen, j);
    hide GetSteps, AllGets, HasSupply, Ready;
    assert !IsGroup(jobs, "build") && !IsGroup(jobs, "test");
    EarlyWhenOneIsUnseen(jobs, j, seen, unseen, "build", "test");
  }

  lemma EarlyWhenOneIsUnseen(jobs: seq<Job>, j: Job, seen: GetStep, unseen: GetStep, a: string, b: string)
    requires DistinctNames(jobs) && GetSteps(j) == [seen] && AllGets(j.plan) == [seen] + [unseen] && a != b
    requires Triggering(seen) && Triggering(unseen) && seen.passed == [a] && unseen.passed == [b]
    requires !IsGroup(jobs, a) && !IsGroup(jobs, b)
    ensures Ready(AllPassed(jobs, j), jobs, j, a) && !Ready(AllPassed(jobs, j), UnfoldAll(jobs), Unfolded(j), a)
  {
    hide GetSteps, AllGets, HasSupply, IsGroup, Expansion, DistinctNames;
    var f := AllPassed(jobs, j);
    OneName(jobs, a);
    PassedSupplies(jobs, j, seen);
    SupplyIs(f, jobs, j, seen, 1);
    assert Referenced(jobs, a, seen.passed);
    assert Ready(f, jobs, j, a);
    ReadyInSight(f, jobs, j, a);
    NoSupplyUnused(f, jobs, j, unseen, b);
    assert unseen in AllGets(j.plan);
  }

  lemma OneName(jobs: seq<Job>, n: string)
    requires !IsGroup(jobs, n)
    ensures NoOverlap(jobs, [n]) && Expansion(jobs, [n]) == [n]
  {
    assert [n][..0] == [] && Expansion(jobs, [n]) == Expansion(jobs, [n][..0]) + ExpandName(jobs, n);
    forall g, p | g in [n] && p in [n] && !IsGroup(jobs, p) ensures !InGroup(jobs, g, p) { assert g == n; }
  }

  lemma TwoGets(seen: GetStep, unseen: GetStep, j: Job)
    requires j.plan == [Get(seen), If([Branch([InParallel([Get(unseen)])])])]
    ensures GetSteps(j) == [seen] && AllGets(j.plan) == [seen] + [unseen]
  {
    var inner := InParallel([Get(unseen)]);
    var b := Branch([inner]);
    assert Concat([b]) == b.steps + Concat([b][1..]);
    var rest := j.plan[1..];
    assert FlatSteps(rest) == [inner] + FlatSteps(rest[1..]);
    assert FlatSteps(j.plan) == [Get(seen)] + FlatSteps(rest);
    assert FlatSteps(j.plan) == [Get(seen), inner];
    assert GetsIn([inner]) == [] + GetsIn([inner][1..]);
    assert [Get(seen), inner][1..] == [inner];
    assert GetsIn([Get(seen), inner]) == [seen] + GetsIn([inner]);
    assert AllGets([Get(unseen)]) == StepGets(Get(unseen)) + AllGets([Get(unseen)][1..]);
    assert AllGets(b.steps) == StepGets(inner) + AllGets(b.steps[1..]);
    assert BranchGets([b]) == AllGets(b.steps) + BranchGets([b][1..]);
    assert AllGets(rest) == StepGets(rest[0]) + AllGets(rest[1..]);
    assert AllGets(j.plan) == StepGets(Get(seen)) + AllGets(rest);
  }

  lemma NoSupplyUnused(f: Facts, jobs: seq<Job>, j: Job, g: GetStep, n: string)
    requires n !in f.history && g.passed == [n] && !IsGroup(jobs, n)
    ensures !HasSupply(f, jobs, j, g)
  {
    OneName(jobs, n);
    hide Expansion, IsGroup;
    forall v | Supplies(f, jobs, j, g, v) ensures false { QualifiedWasUsed(f.history, [n], g.name, v); }
  }
}
