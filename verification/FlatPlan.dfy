/** What FlatPlanSteps sees of a plan (pikoci/job/job.go:144-160).  It looks one level
    deep, while a branch of an if may hold an in_parallel with get steps of its own. */
module FlatPlan {
  import opened Reachability
  import opened Downstream

  // ----- all get steps of a plan, at any depth

  function StepGets(p: PlanStep): seq<GetStep>
    decreases p
  {
    match p
    case Get(g) => [g]
    case InParallel(steps) => AllGets(steps)
    case If(branches) => BranchGets(branches)
    case Other => []
  }

  function AllGets(plan: seq<PlanStep>): seq<GetStep>
    decreases plan
  {
    if plan == [] then [] else StepGets(plan[0]) + AllGets(plan[1..])
  }

  function BranchGets(branches: seq<Branch>): seq<GetStep>
    decreases branches
  {
    if branches == [] then [] else AllGets(branches[0].steps) + BranchGets(branches[1..])
  }

  // ----- get steps out of sight

  predicate Nests(p: PlanStep) { p.InParallel? || p.If? }

  /** A get step two levels down or more. */
  ghost predicate Buried(steps: seq<PlanStep>) {
    exists p :: p in steps && Nests(p) && StepGets(p) != []
  }

  ghost predicate Hides(p: PlanStep) {
    match p
    case InParallel(steps) => Buried(steps)
    case If(branches) => Buried(Concat(branches))
    case _ => false
  }

  ghost predicate AllVisible(plan: seq<PlanStep>) { forall p :: p in plan ==> !Hides(p) }

  lemma {:induction false} GetsInConcat(a: seq<PlanStep>, b: seq<PlanStep>)
    ensures GetsIn(a + b) == GetsIn(a) + GetsIn(b)
    decreases |a|
  {
    if a == [] {
      assert a + b == b;
    } else {
      var here := if a[0].Get? then [a[0].get] else [];
      assert (a + b)[1..] == a[1..] + b && (a + b)[0] == a[0];
      assert GetsIn(a + b) == here + GetsIn(a[1..] + b) && GetsIn(a) == here + GetsIn(a[1..]);
      hide GetsIn;
      GetsInConcat(a[1..], b);
      assert here + (GetsIn(a[1..]) + GetsIn(b)) == (here + GetsIn(a[1..])) + GetsIn(b);
    }
  }

  lemma {:induction false} AllGetsConcat(a: seq<PlanStep>, b: seq<PlanStep>)
    ensures AllGets(a + b) == AllGets(a) + AllGets(b)
    decreases |a|
  {
    if a == [] {
      assert a + b == b;
    } else {
      assert (a + b)[1..] == a[1..] + b;
      AllGetsConcat(a[1..], b);
    }
  }

  lemma {:induction false} BranchesConcat(branches: seq<Branch>)
    ensures BranchGets(branches) == AllGets(Concat(branches))
    decreases |branches|
  {
    if branches != [] {
      BranchesConcat(branches[1..]);
      AllGetsConcat(branches[0].steps, Concat(branches[1..]));
    }
  }

  /** Two ways of listing, part by part: if no part of the first is longer, they are
      equal exactly when all parts are. */
  lemma PartsEqual<T>(a: seq<T>, b: seq<T>, x: seq<T>, y: seq<T>)
    requires |a| <= |x| && |b| <= |y|
    ensures a + b == x + y <==> a == x && b == y
  {
    if a + b == x + y {
      assert |a| == |x|;
      assert a == (a + b)[..|a|] == (x + y)[..|x|] == x;
      assert b == (a + b)[|a|..] == (x + y)[|x|..] == y;
    }
  }

  /** One level: the get steps seen are all there are exactly when none is buried. */
  lemma {:induction false} SeenExactlyWhen(steps: seq<PlanStep>)
    ensures |GetsIn(steps)| <= |AllGets(steps)|
    ensures GetsIn(steps) == AllGets(steps) <==> !Buried(steps)
    decreases |steps|
  {
    if steps != [] {
      var p, rest := steps[0], steps[1..];
      SeenExactlyWhen(rest);
      var here := if p.Get? then [p.get] else [];
      assert steps == [p] + rest;
      PartsEqual(here, GetsIn(rest), StepGets(p), AllGets(rest));
      BuriedStep(p, rest);
    }
  }

  lemma BuriedStep(p: PlanStep, rest: seq<PlanStep>)
    ensures Buried([p] + rest) <==> (Nests(p) && StepGets(p) != []) || Buried(rest)
  {
    var all := [p] + rest;
    assert all[0] == p && forall q :: q in all <==> q == p || q in rest;
    if Buried(rest) {
      var q :| q in rest && Nests(q) && StepGets(q) != [];
      assert q in all;
    }
  }

  function Flat(p: PlanStep): seq<PlanStep> {
    match p case InParallel(steps) => steps case If(bs) => Concat(bs) case _ => [p]
  }

  lemma StepSeenExactlyWhen(p: PlanStep)
    ensures |GetsIn(Flat(p))| <= |StepGets(p)|
    ensures GetsIn(Flat(p)) == StepGets(p) <==> !Hides(p)
  {
    match p {
      case InParallel(steps) => SeenExactlyWhen(steps);
      case If(bs) =>
        BranchesConcat(bs);
        SeenExactlyWhen(Concat(bs));
      case Get(g) => assert GetsIn([p]) == [g] + GetsIn([p][1..]);
      case Other => assert GetsIn([p]) == [] + GetsIn([p][1..]);
    }
  }

  lemma {:induction false} FlatSeenExactlyWhen(plan: seq<PlanStep>)
    ensures |GetsIn(FlatSteps(plan))| <= |AllGets(plan)|
    ensures GetsIn(FlatSteps(plan)) == AllGets(plan) <==> AllVisible(plan)
    decreases |plan|
  {
    if plan != [] {
      var p, rest := plan[0], plan[1..];
      FlatSeenExactlyWhen(rest);
      StepSeenExactlyWhen(p);
      GetsInConcat(Flat(p), FlatSteps(rest));
      PartsEqual(GetsIn(Flat(p)), GetsIn(FlatSteps(rest)), StepGets(p), AllGets(rest));
      hide Hides, Flat, GetsIn;
      assert plan == [p] + rest;
      assert FlatSteps(plan) == Flat(p) + FlatSteps(rest) by { FlatStep(plan); }
      assert forall q :: q in plan <==> q == p || q in rest;
    }
  }

  lemma FlatStep(plan: seq<PlanStep>)
    requires plan != []
    ensures FlatSteps(plan) == Flat(plan[0]) + FlatSteps(plan[1..])
  {
  }

  /** The get steps a job is known by are all its get steps exactly when none stands
      in an in_parallel or if that is itself inside an in_parallel or a branch. */
  lemma AllGetsSeenExactlyWhen(j: Job)
    ensures GetSteps(j) == AllGets(j.plan) <==> AllVisible(j.plan)
  {
    FlatSeenExactlyWhen(j.plan);
  }

  // ----- exactly the get steps on the first two levels

  /** The step is the get step, or an in_parallel or if that holds it directly. */
  ghost predicate Shows(p: PlanStep, g: GetStep) {
    match p
    case Get(x) => x == g
    case InParallel(steps) => Get(g) in steps
    case If(branches) => exists b :: b in branches && Get(g) in b.steps
    case Other => false
  }

  lemma {:induction false} GetsInAre(steps: seq<PlanStep>, g: GetStep)
    ensures g in GetsIn(steps) <==> Get(g) in steps
    decreases |steps|
  {
    if steps != [] {
      GetsInAre(steps[1..], g);
      assert steps == [steps[0]] + steps[1..];
    }
  }

  lemma {:induction false} ConcatHolds(branches: seq<Branch>, p: PlanStep)
    ensures p in Concat(branches) <==> exists b :: b in branches && p in b.steps
    decreases |branches|
  {
    if branches != [] {
      ConcatHolds(branches[1..], p);
      assert branches == [branches[0]] + branches[1..];
    }
  }

  lemma {:induction false} FlatShows(plan: seq<PlanStep>, g: GetStep)
    ensures g in GetsIn(FlatSteps(plan)) <==> exists p :: p in plan && Shows(p, g)
    decreases |plan|
  {
    if plan != [] {
      var p, rest := plan[0], plan[1..];
      FlatStep(plan);
      GetsInConcat(Flat(p), FlatSteps(rest));
      GetsInAre(Flat(p), g);
      if p.If? { ConcatHolds(p.branches, Get(g)); }
      assert Get(g) in Flat(p) <==> Shows(p, g);
      FlatShows(rest, g);
      hide Shows, Flat, GetsIn, FlatSteps;
      assert plan == [p] + rest;
    }
  }

  /** A job is known by the get steps that stand in its plan, or directly in an
      in_parallel or a branch of it, and by no others. */
  lemma GetStepsAre(j: Job, g: GetStep)
    ensures g in GetSteps(j) <==> exists p :: p in j.plan && Shows(p, g)
  {
    FlatShows(j.plan, g);
  }

  /** Every get step seen is a get step of the plan. */
  lemma {:induction false} SeenIsThere(steps: seq<PlanStep>, g: GetStep)
    requires g in GetsIn(steps)
    ensures g in AllGets(steps)
    decreases |steps|
  {
    if !(steps[0].Get? && steps[0].get == g) { SeenIsThere(steps[1..], g); }
  }

  lemma {:induction false} FlatIsThere(plan: seq<PlanStep>, g: GetStep)
    requires g in GetsIn(FlatSteps(plan))
    ensures g in AllGets(plan)
    decreases |plan|
  {
    FlatStep(plan);
    GetsInConcat(Flat(plan[0]), FlatSteps(plan[1..]));
    if g in GetsIn(Flat(plan[0])) {
      SeenIsThere(Flat(plan[0]), g);
      match plan[0] {
        case If(bs) => BranchesConcat(bs);
        case InParallel(_) =>
        case Other =>
        case Get(_) => assert AllGets([plan[0]]) == StepGets(plan[0]) + AllGets([plan[0]][1..]);
      }
    } else {
      FlatIsThere(plan[1..], g);
    }
  }

  // ----- what it costs

  function Lift(gs: seq<GetStep>): (plan: seq<PlanStep>)
    ensures |plan| == |gs| && forall i :: 0 <= i < |gs| ==> plan[i] == Get(gs[i])
  {
    seq(|gs|, i requires 0 <= i < |gs| => Get(gs[i]))
  }

  /** The job with all its get steps in plain sight. */
  function Unfolded(j: Job): Job { j.(plan := Lift(AllGets(j.plan))) }

  function UnfoldAll(jobs: seq<Job>): (r: seq<Job>)
    ensures |r| == |jobs| && forall i :: 0 <= i < |jobs| ==> r[i] == Unfolded(jobs[i])
  {
    seq(|jobs|, i requires 0 <= i < |jobs| => Unfolded(jobs[i]))
  }

  lemma {:induction false} LiftedGets(gs: seq<GetStep>)
    ensures FlatSteps(Lift(gs)) == Lift(gs) && GetsIn(Lift(gs)) == gs
    decreases |gs|
  {
    if gs != [] {
      var plan := Lift(gs);
      assert plan[1..] == Lift(gs[1..]);
      LiftedGets(gs[1..]);
      assert plan == [plan[0]] + plan[1..] && gs == [gs[0]] + gs[1..];
    }
  }

  lemma UnfoldedGets(j: Job)
    ensures GetSteps(Unfolded(j)) == AllGets(j.plan)
    ensures forall g :: g in GetSteps(j) ==> g in GetSteps(Unfolded(j))
    ensures AllVisible(j.plan) ==> GetSteps(Unfolded(j)) == GetSteps(j)
  {
    LiftedGets(AllGets(j.plan));
    forall g | g in GetSteps(j) ensures g in AllGets(j.plan) { FlatIsThere(j.plan, g); }
    AllGetsSeenExactlyWhen(j);
  }

  lemma SameIsGroup(jobs: seq<Job>, g: string)
    ensures IsGroup(UnfoldAll(jobs), g) <==> IsGroup(jobs, g)
  {
    var all := UnfoldAll(jobs);
    if IsGroup(jobs, g) { var k :| 0 <= k < |jobs| && jobs[k].group == g; assert all[k] in all; }
    if IsGroup(all, g) { var k :| 0 <= k < |all| && all[k].group == g; assert jobs[k] in jobs; }
  }

  lemma SameGroups(jobs: seq<Job>, passed: seq<string>, n: string)
    ensures Means(UnfoldAll(jobs), passed, n) <==> Means(jobs, passed, n)
  {
    var all := UnfoldAll(jobs);
    forall g ensures InGroup(all, g, n) <==> InGroup(jobs, g, n) {
      if InGroup(jobs, g, n) {
        var k :| 0 <= k < |jobs| && jobs[k].group == g && jobs[k].name == n;
        assert all[k] in all;
      }
      if InGroup(all, g, n) {
        var k :| 0 <= k < |all| && all[k].group == g && all[k].name == n;
        assert jobs[k] in jobs;
      }
    }
    forall g ensures IsGroup(all, g) <==> IsGroup(jobs, g) { SameIsGroup(jobs, g); }
  }

  lemma WaitsUnfolded(jobs: seq<Job>, j: Job, a: string)
    ensures WaitsFor(jobs, j, a) ==> WaitsFor(UnfoldAll(jobs), Unfolded(j), a)
    ensures AllVisible(j.plan) ==> (WaitsFor(jobs, j, a) <==> WaitsFor(UnfoldAll(jobs), Unfolded(j), a))
  {
    hide Means, GetSteps, Unfolded, AllVisible;
    UnfoldedGets(j);
    forall g: GetStep ensures Means(UnfoldAll(jobs), g.passed, a) <==> Means(jobs, g.passed, a) {
      SameGroups(jobs, g.passed, a);
    }
  }

  lemma FollowsUnfolded(jobs: seq<Job>, a: string, b: string)
    ensures Follows(jobs, a, b) ==> Follows(UnfoldAll(jobs), a, b)
    ensures (forall j :: j in jobs ==> AllVisible(j.plan)) ==> (Follows(jobs, a, b) <==> Follows(UnfoldAll(jobs), a, b))
  {
    hide WaitsFor, AllVisible;
    var all := UnfoldAll(jobs);
    if Follows(jobs, a, b) {
      var k :| 0 <= k < |jobs| && jobs[k].name == b && WaitsFor(jobs, jobs[k], a);
      WaitsUnfolded(jobs, jobs[k], a);
      assert all[k] in all;
    }
    if Follows(all, a, b) && forall j :: j in jobs ==> AllVisible(j.plan) {
      var k :| 0 <= k < |all| && all[k].name == b && WaitsFor(all, all[k], a);
      WaitsUnfolded(jobs, jobs[k], a);
      assert jobs[k] in jobs;
    }
  }

  lemma EntryUnfolded(jobs: seq<Job>, resource: string, trigger: bool)
    ensures DirectNames(jobs, resource, trigger) <= DirectNames(UnfoldAll(jobs), resource, trigger)
    ensures (forall j :: j in jobs ==> AllVisible(j.plan)) ==>
      DirectNames(jobs, resource, trigger) == DirectNames(UnfoldAll(jobs), resource, trigger)
  {
    hide GetSteps, AllVisible;
    var all := UnfoldAll(jobs);
    forall j | j in jobs
      ensures Direct(j, resource, trigger) ==> Direct(Unfolded(j), resource, trigger)
      ensures AllVisible(j.plan) ==> (Direct(j, resource, trigger) <==> Direct(Unfolded(j), resource, trigger))
    {
      UnfoldedGets(j);
    }
    hide Direct;
    forall n | n in DirectNames(jobs, resource, trigger) ensures n in DirectNames(all, resource, trigger) {
      var k :| 0 <= k < |jobs| && Direct(jobs[k], resource, trigger) && jobs[k].name == n;
      assert all[k] in all;
    }
    if forall j :: j in jobs ==> AllVisible(j.plan) {
      forall n | n in DirectNames(all, resource, trigger) ensures n in DirectNames(jobs, resource, trigger) {
        var k :| 0 <= k < |all| && Direct(all[k], resource, trigger) && all[k].name == n;
        assert jobs[k] in jobs;
      }
    }
  }

  /** The walks of ReachableJobs and resolveResourceChain reach no job they should
      not, and reach every job they should wherever no get step is buried. */
  lemma ReachesOnlyWhatItShould(jobs: seq<Job>, resource: string, trigger: bool, n: string)
    ensures Reached(jobs, DirectNames(jobs, resource, trigger), n) ==>
      Reached(UnfoldAll(jobs), DirectNames(UnfoldAll(jobs), resource, trigger), n)
    ensures (forall j :: j in jobs ==> AllVisible(j.plan)) ==>
      (Reached(jobs, DirectNames(jobs, resource, trigger), n) <==>
       Reached(UnfoldAll(jobs), DirectNames(UnfoldAll(jobs), resource, trigger), n))
  {
    hide Follows, AllVisible, DirectNames;
    var all := UnfoldAll(jobs);
    EntryUnfolded(jobs, resource, trigger);
    forall a, b ensures Follows(jobs, a, b) ==> Follows(all, a, b) { FollowsUnfolded(jobs, a, b); }
    if w :| Walk(jobs, DirectNames(jobs, resource, trigger), w) && w[|w| - 1] == n {
      assert Walk(all, DirectNames(all, resource, trigger), w);
    }
    if forall j :: j in jobs ==> AllVisible(j.plan) {
      forall a, b ensures Follows(jobs, a, b) <==> Follows(all, a, b) { FollowsUnfolded(jobs, a, b); }
      if w :| Walk(all, DirectNames(all, resource, trigger), w) && w[|w| - 1] == n {
        assert Walk(jobs, DirectNames(jobs, resource, trigger), w);
      }
    }
  }

  /** The loss is real: "deploy" waits for "build" in an in_parallel inside an if.  No
      walk reaches it, nothing sets it off, and its get step is not among those whose
      versions are checked; with the step in sight it would be reached. */
  lemma BuriedGetIsIgnored()
    ensures var get, wait := GetStep("src", "git.src", [], true), GetStep("src", "git.src", ["build"], true);
      var deploy := Job("deploy", "", [If([Branch([InParallel([Get(wait)])])])]);
      var jobs := [Job("build", "", [Get(get)]), deploy];
      && GetSteps(deploy) == [] && AllGets(deploy.plan) == [wait]
      && !Reached(jobs, DirectNames(jobs, "git.src", true), "deploy")
      && Follows(UnfoldAll(jobs), "build", "deploy")
      && forall c :: !Relevant(jobs, deploy, c)
  {
    var get, wait := GetStep("src", "git.src", [], true), GetStep("src", "git.src", ["build"], true);
    var branch := Branch([InParallel([Get(wait)])]);
    var deploy := Job("deploy", "", [If([branch])]);
    var jobs := [Job("build", "", [Get(get)]), deploy];
    ExampleGets(get, wait, branch, deploy);
    NeverReached(jobs, "deploy");
    WouldFollow(jobs, wait);
  }

  lemma WouldFollow(jobs: seq<Job>, wait: GetStep)
    requires |jobs| == 2 && jobs[0].group == jobs[1].group == "" && wait.passed == ["build"]
    requires AllGets(jobs[1].plan) == [wait] && jobs[1].name == "deploy"
    ensures Follows(UnfoldAll(jobs), "build", "deploy")
  {
    hide AllGets, GetSteps;
    var all := UnfoldAll(jobs);
    UnfoldedGets(jobs[1]);
    assert all[1] in all && wait in GetSteps(all[1]);
    SameGroups(jobs, wait.passed, "build");
    assert "build" in wait.passed && Means(jobs, wait.passed, "build");
    assert WaitsFor(all, all[1], "build");
  }

  lemma ExampleGets(get: GetStep, wait: GetStep, branch: Branch, deploy: Job)
    requires branch == Branch([InParallel([Get(wait)])]) && deploy == Job("deploy", "", [If([branch])])
    ensures GetSteps(deploy) == [] && AllGets(deploy.plan) == [wait]
  {
    assert Concat([branch]) == branch.steps + Concat([branch][1..]);
    assert Flat(deploy.plan[0]) == [InParallel([Get(wait)])];
    FlatStep(deploy.plan);
    assert FlatSteps(deploy.plan) == [InParallel([Get(wait)])];
    assert GetsIn([InParallel([Get(wait)])]) == [] + GetsIn([InParallel([Get(wait)])][1..]);
    assert AllGets([Get(wait)]) == StepGets(Get(wait)) + AllGets([Get(wait)][1..]);
    assert AllGets(branch.steps) == StepGets(branch.steps[0]) + AllGets(branch.steps[1..]);
    assert BranchGets([branch]) == AllGets(branch.steps) + BranchGets([branch][1..]);
    assert AllGets(deploy.plan) == StepGets(deploy.plan[0]) + AllGets(deploy.plan[1..]);
  }

  /** A job none of whose get steps is in sight is never reached. */
  lemma NeverReached(jobs: seq<Job>, n: string)
    requires forall j :: j in jobs && j.name == n ==> GetSteps(j) == []
    ensures forall resource, trigger :: !Reached(jobs, DirectNames(jobs, resource, trigger), n)
  {
    hide GetSteps;
    forall resource, trigger ensures !Reached(jobs, DirectNames(jobs, resource, trigger), n) {
      LastStep(jobs, DirectNames(jobs, resource, trigger), n);
    }
  }

  lemma LastStep(jobs: seq<Job>, seeds: set<string>, n: string)
    ensures Reached(jobs, seeds, n) ==> n in seeds || exists a :: Follows(jobs, a, n)
  {
    if w :| Walk(jobs, seeds, w) && w[|w| - 1] == n {
      if |w| > 1 { assert Follows(jobs, w[|w| - 2], w[|w| - 2 + 1]); }
    }
  }
}
