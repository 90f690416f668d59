/** Which jobs a resource reaches through `passed` constraints
    (pikoci/trigger.go, pikoci/version_path.go:17-85, pikoci/builds.go:638-675). */
module Reachability {
  import opened Collections

  datatype GetStep = GetStep(name: string, resource: string, passed: seq<string>, trigger: bool)

  datatype PlanStep =
    | Get(get: GetStep)
    | InParallel(steps: seq<PlanStep>)
    | If(branches: seq<Branch>)
    | Other

  datatype Branch = Branch(steps: seq<PlanStep>)

  datatype Job = Job(name: string, group: string, plan: seq<PlanStep>)   // group "": not a for_each instance

  // ----- plans

  function Concat(branches: seq<Branch>): seq<PlanStep> {
    if branches == [] then [] else branches[0].steps + Concat(branches[1..])
  }

  /** FlatPlanSteps: one level only; an in_parallel inside an if branch stays whole. */
  function FlatSteps(plan: seq<PlanStep>): seq<PlanStep> {
    if plan == [] then []
    else
      var here := match plan[0] case InParallel(steps) => steps case If(bs) => Concat(bs) case p => [p];
      here + FlatSteps(plan[1..])
  }

  function GetsIn(steps: seq<PlanStep>): seq<GetStep> {
    if steps == [] then [] else (if steps[0].Get? then [steps[0].get] else []) + GetsIn(steps[1..])
  }

  function GetSteps(j: Job): seq<GetStep> { GetsIn(FlatSteps(j.plan)) }

  // ----- group expansion

  ghost predicate IsGroup(jobs: seq<Job>, g: string) {
    g != "" && exists j :: j in jobs && j.group == g
  }

  ghost predicate InGroup(jobs: seq<Job>, g: string, n: string) {
    g != "" && exists j :: j in jobs && j.group == g && j.name == n
  }

  /** What a `passed` list stands for: a group name means its instances. */
  ghost predicate Means(jobs: seq<Job>, passed: seq<string>, n: string) {
    exists p :: p in passed && if IsGroup(jobs, p) then InGroup(jobs, p, n) else n == p
  }

  /** The instances of a group, in declaration order. */
  ghost function InstancesOf(jobs: seq<Job>, g: string): seq<string>
    decreases |jobs|
  {
    if jobs == [] then []
    else
      var n := |jobs| - 1;
      InstancesOf(jobs[..n], g) + if jobs[n].group == g then [jobs[n].name] else []
  }

  ghost function ExpandName(jobs: seq<Job>, p: string): seq<string> {
    if IsGroup(jobs, p) then InstancesOf(jobs, p) else [p]
  }

  /** A `passed` list with every group name replaced by its instances. */
  ghost function Expansion(jobs: seq<Job>, passed: seq<string>): seq<string>
    decreases |passed|
  {
    if passed == [] then [] else Expansion(jobs, passed[..|passed| - 1]) + ExpandName(jobs, passed[|passed| - 1])
  }

  lemma {:induction false} InstanceMembers(jobs: seq<Job>, g: string, n: string)
    requires g != ""
    ensures n in InstancesOf(jobs, g) <==> InGroup(jobs, g, n)
    decreases |jobs|
  {
    if jobs != [] {
      var init := jobs[..|jobs| - 1];
      assert jobs == init + [jobs[|jobs| - 1]];
      InstanceMembers(init, g, n);
    }
  }

  lemma {:induction false} ExpansionMembers(jobs: seq<Job>, passed: seq<string>, n: string)
    ensures n in Expansion(jobs, passed) <==> Means(jobs, passed, n)
    decreases |passed|
  {
    if passed != [] {
      var init, p := passed[..|passed| - 1], passed[|passed| - 1];
      assert passed == init + [p];
      ExpansionMembers(jobs, init, n);
      if p != "" { InstanceMembers(jobs, p, n); }
    }
  }

  /** Lists are expanded name by name, in order ... */
  lemma {:induction false} ExpandedInOrder(jobs: seq<Job>, a: seq<string>, c: seq<string>)
    ensures Expansion(jobs, a + c) == Expansion(jobs, a) + Expansion(jobs, c)
    decreases |c|
  {
    hide ExpandName;
    if c == [] {
      assert a + c == a;
    } else {
      var n := |c| - 1;
      assert (a + c)[..|a + c| - 1] == a + c[..n];
      ExpandedInOrder(jobs, a, c[..n]);
    }
  }

  /** ... a group gives its instances, any other name itself ... */
  lemma OneExpanded(jobs: seq<Job>, p: string)
    ensures Expansion(jobs, [p]) ==
      if p != "" && exists j :: j in jobs && j.group == p then InstancesOf(jobs, p) else [p]
  {
    assert [p][..0] == [] && Expansion(jobs, [p]) == Expansion(jobs, [p][..0]) + ExpandName(jobs, p);
  }

  /** ... and the instances come in declaration order. */
  lemma {:induction false} InstancesInOrder(a: seq<Job>, c: seq<Job>, j: Job, g: string)
    ensures InstancesOf(a + c, g) == InstancesOf(a, g) + InstancesOf(c, g)
    ensures InstancesOf([j], g) == if j.group == g then [j.name] else []
    decreases |c|
  {
    assert [j][..0] == [] && InstancesOf([j], g) == InstancesOf([j][..0], g) + if j.group == g then [j.name] else [];
    if c == [] {
      assert a + c == a;
    } else {
      var n := |c| - 1;
      assert (a + c)[..|a + c| - 1] == a + c[..n];
      InstancesInOrder(a, c[..n], j, g);
    }
  }

  ghost predicate Groups(m: map<string, seq<string>>, jobs: seq<Job>) {
    && (forall g :: g in m <==> IsGroup(jobs, g))
    && (forall g :: g in m ==> m[g] == InstancesOf(jobs, g))
  }

  lemma {:induction false} NoInstances(jobs: seq<Job>, g: string)
    requires g != "" && !IsGroup(jobs, g)
    ensures InstancesOf(jobs, g) == []
    decreases |jobs|
  {
    if jobs != [] {
      assert jobs[|jobs| - 1] in jobs && forall j :: j in jobs[..|jobs| - 1] ==> j in jobs;
      NoInstances(jobs[..|jobs| - 1], g);
    }
  }

  lemma GroupSeen(jobs: seq<Job>, j: Job, g: string)
    ensures IsGroup(jobs + [j], g) <==> IsGroup(jobs, g) || (g != "" && g == j.group)
    ensures InstancesOf(jobs + [j], g) == InstancesOf(jobs, g) + if j.group == g then [j.name] else []
  {
    assert (jobs + [j])[..|jobs|] == jobs;
  }

  lemma GroupsGrow(m: map<string, seq<string>>, jobs: seq<Job>, j: Job)
    requires Groups(m, jobs)
    ensures Groups(if j.group == "" then m else m[j.group := (if j.group in m then m[j.group]
      else []) + [j.name]], jobs + [j])
  {
    if j.group != "" && j.group !in m { NoInstances(jobs, j.group); }
    hide IsGroup, InstancesOf;
    forall g { GroupSeen(jobs, j, g); }
  }

  method GroupInstances(jobs: seq<Job>) returns (m: map<string, seq<string>>)
    ensures Groups(m, jobs)
  {
    m := map[];
    for i := 0 to |jobs|
      invariant Groups(m, jobs[..i])
    {
      hide Groups;
      var j := jobs[i];
      assert jobs[..i + 1] == jobs[..i] + [j];
      GroupsGrow(m, jobs[..i], j);
      if j.group != "" {
        m := m[j.group := (if j.group in m then m[j.group] else []) + [j.name]];
      }
    }
    assert jobs[..|jobs|] == jobs;
  }

  method ResolvePassedJobNames(passed: seq<string>, jobs: seq<Job>) returns (expanded: seq<string>)
    ensures expanded == Expansion(jobs, passed)
    ensures forall n :: n in expanded <==> Means(jobs, passed, n)
  {
    var m := GroupInstances(jobs);
    expanded := [];
    for i := 0 to |passed|
      invariant expanded == Expansion(jobs, passed[..i])
    {
      var p := passed[i];
      assert passed[..i + 1][..i] == passed[..i];
      if p in m { expanded := expanded + m[p]; } else { expanded := expanded + [p]; }
    }
    assert passed[..|passed|] == passed;
    forall n ensures n in expanded <==> Means(jobs, passed, n) { ExpansionMembers(jobs, passed, n); }
  }

  ghost predicate Referenced(jobs: seq<Job>, c: string, passed: seq<string>) {
    c in passed || exists j :: j in jobs && j.name == c && j.group != "" && j.group in passed
  }

  method JobReferencedInPassed(c: string, passed: seq<string>, jobs: seq<Job>) returns (r: bool)
    ensures r == Referenced(jobs, c, passed)
  {
    for i := 0 to |passed|
      invariant c !in passed[..i]
    {
      if passed[i] == c { return true; }
      assert passed[..i + 1] == passed[..i] + [passed[i]];
    }
    assert passed[..|passed|] == passed;
    for i := 0 to |jobs|
      invariant forall k :: 0 <= k < i ==> !(jobs[k].name == c && jobs[k].group != "" && jobs[k].group in passed)
    {
      if jobs[i].name == c && jobs[i].group != "" {
        for k := 0 to |passed|
          invariant jobs[i].group !in passed[..k]
        {
          if passed[k] == jobs[i].group { assert jobs[i] in jobs; return true; }
          assert passed[..k + 1] == passed[..k] + [passed[k]];
        }
      }
    }
    return false;
  }

  /** The two answers differ in one case only: the job's name is also the name of a
      group in the list, and the job is an instance of no group in the list. */
  lemma ReferencedIffMeantExcept(jobs: seq<Job>, c: string, passed: seq<string>)
    ensures (Referenced(jobs, c, passed) <==> Means(jobs, passed, c)) <==>
      !(c in passed && IsGroup(jobs, c) && !exists g :: g in passed && InGroup(jobs, g, c))
  {
    if g :| g in passed && InGroup(jobs, g, c) { assert IsGroup(jobs, g); }
  }

  /** So they agree wherever no job is named like a group. */
  lemma ReferencedMeansMeant(jobs: seq<Job>, c: string, passed: seq<string>)
    requires forall j :: j in jobs ==> !IsGroup(jobs, j.name)
    requires exists j :: j in jobs && j.name == c
    ensures Referenced(jobs, c, passed) <==> Means(jobs, passed, c)
  {
    ReferencedIffMeantExcept(jobs, c, passed);
  }

  /** The exception is met by a pipeline with a plain job named like a group. */
  lemma JobNamedLikeGroup()
    ensures var jobs := [Job("t", "", []), Job("t--x", "t", [])];
      Referenced(jobs, "t", ["t"]) && !Means(jobs, ["t"], "t") && Means(jobs, ["t"], "t--x")
  {
    var jobs := [Job("t", "", []), Job("t--x", "t", [])];
    assert jobs[1] in jobs && IsGroup(jobs, "t") && InGroup(jobs, "t", "t--x");
    assert "t" in ["t"];
  }

  // ----- reachability

  /** Some job named `b` has a get step that waits for a job named `a`. */
  ghost predicate Follows(jobs: seq<Job>, a: string, b: string) {
    exists j :: j in jobs && j.name == b && WaitsFor(jobs, j, a)
  }

  ghost predicate WaitsFor(jobs: seq<Job>, j: Job, a: string) {
    exists g :: g in GetSteps(j) && g.passed != [] && Means(jobs, g.passed, a)
  }

  /** A walk along `passed` constraints that starts at a seed. */
  ghost predicate Walk(jobs: seq<Job>, seeds: set<string>, w: seq<string>) {
    w != [] && w[0] in seeds && forall i :: 0 <= i < |w| - 1 ==> Follows(jobs, w[i], w[i + 1])
  }

  ghost predicate Reached(jobs: seq<Job>, seeds: set<string>, n: string) {
    exists w :: Walk(jobs, seeds, w) && w[|w| - 1] == n
  }

  lemma SeedReached(jobs: seq<Job>, seeds: set<string>, n: string)
    requires n in seeds
    ensures Reached(jobs, seeds, n)
  {
    assert Walk(jobs, seeds, [n]) && [n][0] == n;
  }

  lemma StepReached(jobs: seq<Job>, seeds: set<string>, a: string, b: string)
    requires Reached(jobs, seeds, a) && Follows(jobs, a, b)
    ensures Reached(jobs, seeds, b)
  {
    var w :| Walk(jobs, seeds, w) && w[|w| - 1] == a;
    var v := w + [b];
    forall i | 0 <= i < |v| - 1 ensures Follows(jobs, v[i], v[i + 1]) {
      if i < |w| - 1 { assert Follows(jobs, w[i], w[i + 1]); }
    }
    assert Walk(jobs, seeds, v) && v[|v| - 1] == b;
  }

  /** Any set with the seeds that is closed under Follows holds all that is reached. */
  lemma ReachedIsLeast(jobs: seq<Job>, seeds: set<string>, s: set<string>, n: string)
    requires seeds <= s && (forall a, b :: a in s && Follows(jobs, a, b) ==> b in s) && Reached(jobs, seeds, n)
    ensures n in s
  {
    var w :| Walk(jobs, seeds, w) && w[|w| - 1] == n;
    for i := 1 to |w|
      invariant w[i - 1] in s
    {
      assert Follows(jobs, w[i - 1], w[i - 1 + 1]);
    }
  }

  lemma MoreSeedsReachMore(jobs: seq<Job>, small: set<string>, large: set<string>, n: string)
    requires small <= large && Reached(jobs, small, n)
    ensures Reached(jobs, large, n)
  {
    var w :| Walk(jobs, small, w) && w[|w| - 1] == n;
    assert Walk(jobs, large, w);
  }

  // ----- the search

  method Waits(jobs: seq<Job>, j: Job, a: string) returns (r: bool)
    ensures r == WaitsFor(jobs, j, a)
  {
    var gs := GetSteps(j);
    for i := 0 to |gs|
      invariant forall k :: 0 <= k < i ==> !(gs[k].passed != [] && Means(jobs, gs[k].passed, a))
    {
      if gs[i].passed != [] {
        var expanded := ResolvePassedJobNames(gs[i].passed, jobs);
        if a in expanded { assert gs[i] in gs; return true; }
      }
    }
    return false;
  }

  ghost function NamesOf(jobs: seq<Job>): set<string> { set j | j in jobs :: j.name }

  ghost function Elements(s: seq<string>): set<string> { set x | x in s }

  lemma {:induction false} ElementsCount(s: seq<string>)
    ensures |Elements(s)| <= |s|
    ensures |Elements(s)| == |s| <==> Distinct(s)
    decreases |s|
  {
    if s != [] {
      var rest := s[1..];
      ElementsCount(rest);
      assert s == [s[0]] + rest;
      assert Elements(s) == Elements(rest) + {s[0]};
      assert s[0] in Elements(rest) <==> s[0] in rest;
      ConcatDistinct([s[0]], rest);
      assert Distinct([s[0]]);
    }
  }

  /** The jobs met so far are those that left the queue and those still in it, each
      once, and all of them are reached. */
  ghost predicate Front(jobs: seq<Job>, start: set<string>, chain: seq<string>, queue: seq<string>,
                        visited: set<string>) {
    && Distinct(chain + queue) && Elements(chain + queue) == visited
    && start <= visited <= NamesOf(jobs)
    && forall n :: n in visited ==> Reached(jobs, start, n)
  }

  lemma FrontStart(jobs: seq<Job>, seeds: seq<string>)
    requires Distinct(seeds) && Elements(seeds) <= NamesOf(jobs)
    ensures Front(jobs, Elements(seeds), [], seeds, Elements(seeds))
  {
    assert [] + seeds == seeds;
    forall n | n in Elements(seeds) ensures Reached(jobs, Elements(seeds), n) { SeedReached(jobs, Elements(seeds), n); }
  }

  lemma FrontDequeue(jobs: seq<Job>, start: set<string>, chain: seq<string>, queue: seq<string>, visited: set<string>)
    requires Front(jobs, start, chain, queue, visited) && queue != []
    ensures Front(jobs, start, chain + [queue[0]], queue[1..], visited) && queue[0] in visited
  {
    assert (chain + [queue[0]]) + queue[1..] == chain + queue;
    assert queue[0] in chain + queue;
  }

  lemma FrontEnqueue(jobs: seq<Job>, start: set<string>, chain: seq<string>, queue: seq<string>,
                     visited: set<string>, a: string, j: Job)
    requires Front(jobs, start, chain, queue, visited) && j.name !in visited && j in jobs
    requires a in visited && WaitsFor(jobs, j, a)
    ensures Front(jobs, start, chain, queue + [j.name], visited + {j.name})
  {
    hide WaitsFor, Reached;
    assert chain + (queue + [j.name]) == (chain + queue) + [j.name];
    assert Follows(jobs, a, j.name);
    StepReached(jobs, start, a, j.name);
    var all := (chain + queue) + [j.name];
    assert j.name !in chain + queue;
    assert j.name in NamesOf(jobs);
  }

  lemma FrontEnd(jobs: seq<Job>, start: set<string>, chain: seq<string>, visited: set<string>)
    requires Front(jobs, start, chain, [], visited)
    requires forall a, b :: a in chain && Follows(jobs, a, b) ==> b in visited
    ensures Distinct(chain) && forall n :: n in chain <==> Reached(jobs, start, n)
  {
    assert chain + [] == chain;
    assert forall a :: a in visited <==> a in chain;
    forall n | Reached(jobs, start, n) ensures n in chain { ReachedIsLeast(jobs, start, visited, n); }
  }

  /** Breadth-first search from the queued seeds; `chain` lists the jobs in the
      order they leave the queue. */
  method Search(jobs: seq<Job>, seeds: seq<string>) returns (chain: seq<string>)
    requires Distinct(seeds) && Elements(seeds) <= NamesOf(jobs)
    ensures Distinct(chain)
    ensures forall n :: n in chain <==> Reached(jobs, Elements(seeds), n)
  {
    hide Front, Reached, Follows, Distinct;
    ghost var start := Elements(seeds);
    var queue, visited := seeds, set x | x in seeds;
    chain := [];
    FrontStart(jobs, seeds);
    ghost var names := NamesOf(jobs);
    while queue != []
      invariant Front(jobs, start, chain, queue, visited) && visited <= names
      invariant forall a, b :: a in chain && Follows(jobs, a, b) ==> b in visited
      decreases names - visited, |queue|
    {
      var current := queue[0];
      FrontDequeue(jobs, start, chain, queue, visited);
      queue, chain := queue[1..], chain + [current];
      queue, visited := Discover(jobs, start, chain, current, queue, visited);
    }
    FrontEnd(jobs, start, chain, visited);
  }

  /** One round: queues every job not seen yet that waits for `current`. */
  method Discover(jobs: seq<Job>, ghost start: set<string>, ghost chain: seq<string>, current: string,
                  queue0: seq<string>, visited0: set<string>)
    returns (queue: seq<string>, visited: set<string>)
    requires Front(jobs, start, chain, queue0, visited0) && current in visited0
    ensures Front(jobs, start, chain, queue, visited) && visited <= NamesOf(jobs)
    ensures visited0 <= visited && (visited == visited0 ==> queue == queue0)
    ensures forall b :: Follows(jobs, current, b) ==> b in visited
  {
    hide Front, WaitsFor;
    queue, visited := queue0, visited0;
    for i := 0 to |jobs|
      invariant Front(jobs, start, chain, queue, visited)
      invariant visited0 <= visited && (visited == visited0 ==> queue == queue0)
      invariant forall k :: 0 <= k < i && WaitsFor(jobs, jobs[k], current) ==> jobs[k].name in visited
    {
      var j := jobs[i];
      if j.name !in visited {
        var hit := Waits(jobs, j, current);
        if hit {
          FrontEnqueue(jobs, start, chain, queue, visited, current, j);
          visited, queue := visited + {j.name}, queue + [j.name];
        }
      }
    }
    FrontInside(jobs, start, chain, queue, visited);
  }

  lemma FrontInside(jobs: seq<Job>, start: set<string>, chain: seq<string>, queue: seq<string>, visited: set<string>)
    requires Front(jobs, start, chain, queue, visited)
    ensures visited <= NamesOf(jobs)
  {
  }

  // ----- the two walks

  ghost predicate Direct(j: Job, resource: string, mustTrigger: bool) {
    exists g :: g in GetSteps(j) && g.resource == resource && g.passed == [] && (mustTrigger ==> g.trigger)
  }

  ghost function DirectNames(jobs: seq<Job>, resource: string, mustTrigger: bool): set<string> {
    set j | j in jobs && Direct(j, resource, mustTrigger) :: j.name
  }

  method GetsDirectly(j: Job, resource: string, mustTrigger: bool) returns (r: bool)
    ensures r == Direct(j, resource, mustTrigger)
  {
    var gs := GetSteps(j);
    for i := 0 to |gs|
      invariant forall k :: 0 <= k < i ==>
        !(gs[k].resource == resource && gs[k].passed == [] && (mustTrigger ==> gs[k].trigger))
    {
      if gs[i].resource == resource && gs[i].passed == [] && (!mustTrigger || gs[i].trigger) {
        assert gs[i] in gs;
        return true;
      }
    }
    return false;
  }

  method EntryPoints(jobs: seq<Job>, resource: string, mustTrigger: bool) returns (names: seq<string>)
    ensures Distinct(names) && Elements(names) == DirectNames(jobs, resource, mustTrigger) <= NamesOf(jobs)
  {
    names := [];
    for i := 0 to |jobs|
      invariant Distinct(names)
      invariant forall n :: n in names <==>
        exists k :: 0 <= k < i && Direct(jobs[k], resource, mustTrigger) && jobs[k].name == n
    {
      var direct := GetsDirectly(jobs[i], resource, mustTrigger);
      if direct && jobs[i].name !in names { names := names + [jobs[i].name]; }
    }
    forall n ensures n in names <==> n in DirectNames(jobs, resource, mustTrigger) {
      if n in DirectNames(jobs, resource, mustTrigger) {
        var j :| j in jobs && Direct(j, resource, mustTrigger) && j.name == n;
        var k :| 0 <= k < |jobs| && jobs[k] == j;
      }
    }
  }

  // ----- the two walks, said about get steps

  /** The get step fetches the resource and waits for nobody. */
  ghost predicate Fetches(g: GetStep, resource: string, mustTrigger: bool) {
    g.resource == resource && g.passed == [] && (mustTrigger ==> g.trigger)
  }

  /** The get step fetches the resource or waits for one of `names`. */
  ghost predicate Leads(jobs: seq<Job>, resource: string, mustTrigger: bool, names: seq<string>, g: GetStep) {
    Fetches(g, resource, mustTrigger) || exists m :: m in names && Means(jobs, g.passed, m)
  }

  /** `names` holds every job that fetches the resource and every job with a get step
      that waits for one of `names`, and no job without such a get step. */
  ghost predicate Chained(jobs: seq<Job>, resource: string, mustTrigger: bool, names: seq<string>) {
    && (forall j, g :: j in jobs && g in GetSteps(j) && Fetches(g, resource, mustTrigger) ==> j.name in names)
    && (forall j, g, n :: j in jobs && g in GetSteps(j) && n in names && Means(jobs, g.passed, n) ==> j.name in names)
    && (forall n :: n in names ==>
          exists j, g :: j in jobs && j.name == n && g in GetSteps(j) && Leads(jobs, resource, mustTrigger, names, g))
  }

  lemma EntryReached(jobs: seq<Job>, resource: string, t: bool, j: Job, g: GetStep)
    requires j in jobs && g in GetSteps(j) && Fetches(g, resource, t)
    ensures Reached(jobs, DirectNames(jobs, resource, t), j.name)
  {
    hide GetSteps;
    assert Direct(j, resource, t);
    SeedReached(jobs, DirectNames(jobs, resource, t), j.name);
  }

  lemma NextReached(jobs: seq<Job>, seeds: set<string>, j: Job, g: GetStep, n: string)
    requires j in jobs && g in GetSteps(j) && Means(jobs, g.passed, n) && Reached(jobs, seeds, n)
    ensures Reached(jobs, seeds, j.name)
  {
    hide GetSteps, Reached;
    assert WaitsFor(jobs, j, n);
    assert Follows(jobs, n, j.name);
    StepReached(jobs, seeds, n, j.name);
  }

  lemma WhyReached(jobs: seq<Job>, resource: string, t: bool, n: string) returns (j: Job, g: GetStep, m: string)
    requires Reached(jobs, DirectNames(jobs, resource, t), n)
    ensures j in jobs && j.name == n && g in GetSteps(j)
    ensures Fetches(g, resource, t) || (Means(jobs, g.passed, m) && Reached(jobs, DirectNames(jobs, resource, t), m))
  {
    hide GetSteps;
    var seeds := DirectNames(jobs, resource, t);
    var w :| Walk(jobs, seeds, w) && w[|w| - 1] == n;
    m := "";
    if |w| == 1 {
      j :| j in jobs && Direct(j, resource, t) && j.name == n;
      g :| g in GetSteps(j) && g.resource == resource && g.passed == [] && (t ==> g.trigger);
    } else {
      m := w[|w| - 2];
      assert Follows(jobs, w[|w| - 2], w[|w| - 2 + 1]);
      j :| j in jobs && j.name == n && WaitsFor(jobs, j, m);
      g :| g in GetSteps(j) && g.passed != [] && Means(jobs, g.passed, m);
      var v := w[..|w| - 1];
      assert Walk(jobs, seeds, v) by {
        forall i | 0 <= i < |v| - 1 ensures Follows(jobs, v[i], v[i + 1]) { assert Follows(jobs, w[i], w[i + 1]); }
      }
      assert v[|v| - 1] == m;
    }
  }

  lemma ReachedIsChained(jobs: seq<Job>, resource: string, t: bool, names: seq<string>)
    requires forall n :: n in names <==> Reached(jobs, DirectNames(jobs, resource, t), n)
    ensures Chained(jobs, resource, t, names)
  {
    hide GetSteps, Reached, Means, Fetches;
    var seeds := DirectNames(jobs, resource, t);
    forall j, g | j in jobs && g in GetSteps(j) && Fetches(g, resource, t) ensures j.name in names {
      EntryReached(jobs, resource, t, j, g);
    }
    forall j, g, n | j in jobs && g in GetSteps(j) && n in names && Means(jobs, g.passed, n) ensures j.name in names {
      NextReached(jobs, seeds, j, g, n);
    }
    forall n | n in names
      ensures exists j, g :: j in jobs && j.name == n && g in GetSteps(j) && Leads(jobs, resource, t, names, g)
    {
      var j, g, m := WhyReached(jobs, resource, t, n);
      assert Leads(jobs, resource, t, names, g);
    }
  }

  /** resolveResourceChain: every job the resource reaches, each once. */
  method ResolveResourceChain(jobs: seq<Job>, resource: string) returns (chain: seq<string>)
    ensures Distinct(chain)
    ensures forall n :: n in chain <==> Reached(jobs, DirectNames(jobs, resource, false), n)
    ensures Chained(jobs, resource, false, chain)
  {
    hide Chained, Reached;
    var seeds := EntryPoints(jobs, resource, false);
    chain := Search(jobs, seeds);
    ReachedIsChained(jobs, resource, false, chain);
  }

  /** ReachableJobs: the jobs reached from those the resource triggers directly, in
      declaration order, and always among those of the resource chain. */
  method ReachableJobs(jobs: seq<Job>, resource: string)
    returns (result: seq<Job>, ghost at: seq<nat>, ghost reached: seq<string>)
    ensures InOrder(jobs, at, result)
    ensures Chained(jobs, resource, true, reached) && forall j :: j in result <==> j in jobs && j.name in reached
    ensures forall j :: j in result <==> j in jobs && Reached(jobs, DirectNames(jobs, resource, true), j.name)
    ensures forall j :: j in result ==> Reached(jobs, DirectNames(jobs, resource, false), j.name)
    ensures DistinctNames(jobs) ==> DistinctNames(result)
  {
    hide Reached, Chained;
    var seeds := EntryPoints(jobs, resource, true);
    var names := Search(jobs, seeds);
    reached := names;
    ReachedIsChained(jobs, resource, true, names);
    result, at := [], [];
    for i := 0 to |jobs|
      invariant InOrder(jobs, at, result) && forall k :: 0 <= k < |at| ==> at[k] < i
      invariant forall j :: j in result <==> j in jobs[..i] && j.name in names
      invariant DistinctNames(jobs) ==> DistinctNames(result)
    {
      assert jobs[..i + 1] == jobs[..i] + [jobs[i]];
      if jobs[i].name in names {
        NotYet(jobs, i, result);
        result, at := result + [jobs[i]], at + [i];
      }
    }
    assert jobs[..|jobs|] == jobs;
    forall j | j in result ensures Reached(jobs, DirectNames(jobs, resource, false), j.name) {
      TriggersAreEntryPoints(jobs, resource);
      MoreSeedsReachMore(jobs, DirectNames(jobs, resource, true), DirectNames(jobs, resource, false), j.name);
    }
  }

  /** `result` lists jobs at increasing positions. */
  ghost predicate InOrder(jobs: seq<Job>, at: seq<nat>, result: seq<Job>) {
    && |at| == |result|
    && (forall k :: 0 <= k < |at| ==> at[k] < |jobs| && result[k] == jobs[at[k]])
    && (forall k, l :: 0 <= k < l < |at| ==> at[k] < at[l])
  }

  ghost predicate DistinctNames(jobs: seq<Job>) {
    forall i, j :: 0 <= i < j < |jobs| ==> jobs[i].name != jobs[j].name
  }

  lemma NotYet(jobs: seq<Job>, i: nat, result: seq<Job>)
    requires i < |jobs| && forall j :: j in result ==> j in jobs[..i]
    ensures DistinctNames(jobs) && DistinctNames(result) ==> DistinctNames(result + [jobs[i]])
  {
    if DistinctNames(jobs) {
      forall k | 0 <= k < |result| ensures result[k].name != jobs[i].name {
        assert result[k] in jobs[..i];
        var m :| 0 <= m < i && jobs[..i][m] == result[k];
        assert jobs[m].name != jobs[i].name;
      }
    }
  }

  lemma TriggersAreEntryPoints(jobs: seq<Job>, resource: string)
    ensures DirectNames(jobs, resource, true) <= DirectNames(jobs, resource, false)
  {
    forall n | n in DirectNames(jobs, resource, true) ensures n in DirectNames(jobs, resource, false) {
      var j :| j in jobs && Direct(j, resource, true) && j.name == n;
      assert Direct(j, resource, false);
    }
  }
}
